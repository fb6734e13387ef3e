/** Rule counts of the Gibbs sampler (gextract/gextract.py, class Counts): a count per rule and a sum per group, changed
  * as nodes of the sample change their rules. */
module RuleCounts {
  import opened Numbers

  /** The Count object that a node holds, if any. */
  datatype Held = Unheld | Holding(value: nat)

  datatype MaybeRule = NoRule | Has(rule: Rule)

  /** A rule and its group; a Count object is known by its position in the list of all that were made. */
  datatype Rule = Rule(text: string, group: nat)

  /** How many of the nodes hold Count object r. */
  ghost function Uses(nodes: seq<Held>, r: nat): nat {
    if |nodes| == 0 then 0 else Uses(nodes[..|nodes| - 1], r) + One(nodes[|nodes| - 1] == Holding(r))
  }

  ghost predicate InGroup(made: seq<Rule>, c: Held, g: nat) {
    c.Holding? && c.value < |made| && made[c.value].group == g
  }

  /** How many of the nodes hold a rule of group g. */
  ghost function GroupUses(made: seq<Rule>, nodes: seq<Held>, g: nat): nat {
    if |nodes| == 0 then 0 else GroupUses(made, nodes[..|nodes| - 1], g) + One(InGroup(made, nodes[|nodes| - 1], g))
  }

  lemma {:induction false} UsesSet(made: seq<Rule>, nodes: seq<Held>, i: nat, c: Held, r: nat, g: nat)
    requires i < |nodes|
    ensures Uses(nodes[i := c], r) == Uses(nodes, r) - One(nodes[i] == Holding(r)) + One(c == Holding(r))
    ensures GroupUses(made, nodes[i := c], g) == GroupUses(made, nodes, g) - One(InGroup(made, nodes[i], g)) + One(InGroup(made, c, g))
  {
    hide InGroup;
    var n := |nodes| - 1;
    if i == n {
      assert nodes[i := c][..n] == nodes[..n];
    } else {
      assert nodes[i := c][..n] == nodes[..n][i := c];
      UsesSet(made, nodes[..n], i, c, r, g);
    }
  }

  lemma UsesMore(made: seq<Rule>, nodes: seq<Held>, r: nat, g: nat)
    ensures Uses(nodes + [Unheld], r) == Uses(nodes, r) && GroupUses(made, nodes + [Unheld], g) == GroupUses(made, nodes, g)
  {
    assert (nodes + [Unheld])[..|nodes|] == nodes;
  }

  lemma {:induction false} GroupOfMore(made: seq<Rule>, x: Rule, nodes: seq<Held>, g: nat)
    requires forall i :: 0 <= i < |nodes| && nodes[i].Holding? ==> nodes[i].value < |made|
    ensures GroupUses(made + [x], nodes, g) == GroupUses(made, nodes, g)
  {
    if |nodes| > 0 { GroupOfMore(made, x, nodes[..|nodes| - 1], g); }
  }

  lemma {:induction false} Unused(made: seq<Rule>, nodes: seq<Held>, r: nat, g: nat)
    requires forall i :: 0 <= i < |nodes| && nodes[i].Holding? ==> nodes[i].value < |made|
    ensures r >= |made| ==> Uses(nodes, r) == 0
    ensures (forall c :: 0 <= c < |made| ==> made[c].group != g) ==> GroupUses(made, nodes, g) == 0
  {
    if |nodes| > 0 { Unused(made, nodes[..|nodes| - 1], r, g); }
  }

  lemma {:induction false} UsedIsHeld(nodes: seq<Held>, r: nat)
    ensures Uses(nodes, r) > 0 <==> exists i :: 0 <= i < |nodes| && nodes[i] == Holding(r)
  {
    if |nodes| > 0 {
      UsedIsHeld(nodes[..|nodes| - 1], r);
      if exists i :: 0 <= i < |nodes| && nodes[i] == Holding(r) {
        var i :| 0 <= i < |nodes| && nodes[i] == Holding(r);
        if i < |nodes| - 1 { assert nodes[..|nodes| - 1][i] == Holding(r); }
      }
    }
  }

  /** The count of each rule, summed over the rules of a group. */
  ghost function CountSum(made: seq<Rule>, count: seq<int>, g: nat, n: nat): int
    requires n <= |made| == |count|
  {
    if n == 0 then 0 else CountSum(made, count, g, n - 1) + if made[n - 1].group == g then count[n - 1] else 0
  }

  /** Counts are numbers of nodes, norms are alpha and numbers of nodes with a rule of the group. */
  ghost predicate Tallied(made: seq<Rule>, count: seq<int>, norms: map<nat, real>, alpha: real, nodes: seq<Held>) {
    && |count| == |made|
    && (forall i :: 0 <= i < |nodes| && nodes[i].Holding? ==> nodes[i].value < |made|)
    && (forall r :: 0 <= r < |made| ==> count[r] == Uses(nodes, r) && made[r].group in norms)
    && (forall g :: g in norms ==> norms[g] == alpha + GroupUses(made, nodes, g) as real)
  }

  lemma TallySame(made: seq<Rule>, count: seq<int>, norms: map<nat, real>, alpha: real, nodes: seq<Held>, nodes': seq<Held>)
    requires Tallied(made, count, norms, alpha, nodes)
    requires forall i :: 0 <= i < |nodes'| && nodes'[i].Holding? ==> nodes'[i].value < |made|
    requires forall r: nat :: Uses(nodes, r) == Uses(nodes', r)
    requires forall g: nat :: GroupUses(made, nodes, g) == GroupUses(made, nodes', g)
    ensures Tallied(made, count, norms, alpha, nodes')
  {}

  /** add(c, 1) for a node that gets c, add(c, -1) for one that had it. */
  lemma TallySets(made: seq<Rule>, count: seq<int>, norms: map<nat, real>, alpha: real, nodes: seq<Held>, i: nat, c: nat, d: int)
    requires Tallied(made, count, norms, alpha, nodes) && i < |nodes| && c < |made|
    requires (d == 1 && nodes[i] == Unheld) || (d == -1 && nodes[i] == Holding(c))
    ensures made[c].group in norms
    ensures Tallied(made, count[c := count[c] + d], norms[made[c].group := norms[made[c].group] + d as real], alpha,
                    nodes[i := if d == 1 then Holding(c) else Unheld])
  {
    var x := if d == 1 then Holding(c) else Unheld;
    forall r: nat, g: nat
      ensures Uses(nodes[i := x], r) == Uses(nodes, r) + (if r == c then d else 0)
      ensures GroupUses(made, nodes[i := x], g) == GroupUses(made, nodes, g) + (if made[c].group == g then d else 0)
    {
      UsesSet(made, nodes, i, x, r, g);
    }
    hide Uses, GroupUses;
  }

  lemma TallyNewRule(made: seq<Rule>, count: seq<int>, norms: map<nat, real>, alpha: real, nodes: seq<Held>, x: Rule)
    requires Tallied(made, count, norms, alpha, nodes)
    ensures Tallied(made + [x], count + [0], if x.group in norms then norms else norms[x.group := alpha], alpha, nodes)
  {
    forall g ensures GroupUses(made + [x], nodes, g) == GroupUses(made, nodes, g) {
      GroupOfMore(made, x, nodes, g);
    }
    Unused(made, nodes, |made|, x.group);
    hide Uses, GroupUses;
  }

  lemma {:induction false} NoneHeld(made: seq<Rule>, n: nat, r: nat, g: nat)
    ensures Uses(seq(n, _ => Unheld), r) == 0 && GroupUses(made, seq(n, _ => Unheld), g) == 0
  {
    if n > 0 {
      NoneHeld(made, n - 1, r, g);
      assert seq(n, _ => Held.Unheld)[..n - 1] == seq(n - 1, _ => Held.Unheld);
    }
  }

  /** Counting nodes by group is summing the counts of the group's rules. */
  lemma {:induction false} GroupIsSum(made: seq<Rule>, count: seq<int>, nodes: seq<Held>, g: nat)
    requires |count| == |made| && forall r :: 0 <= r < |made| ==> count[r] == Uses(nodes, r)
    requires forall i :: 0 <= i < |nodes| && nodes[i].Holding? ==> nodes[i].value < |made|
    ensures CountSum(made, count, g, |made|) == GroupUses(made, nodes, g)
    decreases |nodes|
  {
    if |nodes| == 0 {
      SumOfZeros(made, count, g, |made|);
    } else {
      var last := nodes[|nodes| - 1];
      var fewer := seq(|made|, (r: nat) requires r < |made| && |count| == |made| => count[r] - One(last == Holding(r)));
      GroupIsSum(made, fewer, nodes[..|nodes| - 1], g);
      SumDiffers(made, count, fewer, last, g, |made|);
    }
  }

  lemma {:induction false} SumOfZeros(made: seq<Rule>, count: seq<int>, g: nat, n: nat)
    requires n <= |made| == |count| && forall r :: 0 <= r < n ==> count[r] == 0
    ensures CountSum(made, count, g, n) == 0
  {
    if n > 0 { SumOfZeros(made, count, g, n - 1); }
  }

  lemma {:induction false} SumDiffers(made: seq<Rule>, count: seq<int>, fewer: seq<int>, c: Held, g: nat, n: nat)
    requires n <= |made| == |count| == |fewer| && forall r: nat :: r < n ==> count[r] == fewer[r] + One(c == Holding(r))
    ensures CountSum(made, count, g, n) == CountSum(made, fewer, g, n) + One(InGroup(made, c, g) && c.value < n)
  {
    if n > 0 { SumDiffers(made, count, fewer, c, g, n - 1); }
  }

  /** Count object c and its group have d more. */
  ghost predicate Adds(made: seq<Rule>, count: seq<int>, norms: map<nat, real>, count': seq<int>, norms': map<nat, real>, c: nat, d: int) {
    && c < |made| && c < |count| && made[c].group in norms
    && count' == count[c := count[c] + d] && norms' == norms[made[c].group := norms[made[c].group] + d as real]
  }

  // ----- what looking up rules does to the table -----

  ghost function AskedOf(rule: MaybeRule): set<Rule> {
    if rule.Has? then {rule.rule} else {}
  }

  ghost function AskedAll(candidates: seq<(MaybeRule, MaybeRule)>): set<Rule> {
    if |candidates| == 0 then {} else
    var last := candidates[|candidates| - 1];
    AskedAll(candidates[..|candidates| - 1]) + AskedOf(last.0) + AskedOf(last.1)
  }

  lemma {:induction false} AskedAllHas(candidates: seq<(MaybeRule, MaybeRule)>, k: nat)
    requires k < |candidates|
    ensures AskedOf(candidates[k].0) + AskedOf(candidates[k].1) <= AskedAll(candidates)
    decreases |candidates|
  {
    if k < |candidates| - 1 { AskedAllHas(candidates[..|candidates| - 1], k); }
  }

  /** The objects of the table stay; new texts have new objects, made for rules that were asked for. */
  ghost predicate Entered(made: seq<Rule>, rules: map<string, nat>, made': seq<Rule>, rules': map<string, nat>, asked: set<Rule>) {
    && made <= made' && (forall text :: text in rules ==> text in rules' && rules'[text] == rules[text])
    && (forall text :: text in rules' && text !in rules ==> |made| <= rules'[text])
    && forall c :: |made| <= c < |made'| ==> made'[c] in asked
  }

  lemma EnteredOne(made: seq<Rule>, rules: map<string, nat>, rule: Rule)
    requires rule.text !in rules
    ensures Entered(made, rules, made + [rule], rules[rule.text := |made|], {rule})
  {}

  lemma EnteredMore(made: seq<Rule>, rules: map<string, nat>, made1: seq<Rule>, rules1: map<string, nat>, asked1: set<Rule>,
                    made2: seq<Rule>, rules2: map<string, nat>, asked2: set<Rule>)
    requires Entered(made, rules, made1, rules1, asked1) && Entered(made1, rules1, made2, rules2, asked2)
    ensures Entered(made, rules, made2, rules2, asked1 + asked2)
  {
    forall c | |made| <= c < |made2| ensures made2[c] in asked1 + asked2 {
      if c < |made1| { assert made2[c] == made1[c]; }
    }
  }

  lemma NoneAsked(made: seq<Rule>, rules: map<string, nat>)
    ensures Entered(made, rules, made, rules, AskedAll([]))
  {}

  lemma OneMoreAsked(made: seq<Rule>, rules: map<string, nat>, made1: seq<Rule>, rules1: map<string, nat>, made2: seq<Rule>, rules2: map<string, nat>,
                     candidates: seq<(MaybeRule, MaybeRule)>, i: nat)
    requires i < |candidates| && Entered(made, rules, made1, rules1, AskedAll(candidates[..i]))
    requires Entered(made1, rules1, made2, rules2, AskedOf(candidates[i].0) + AskedOf(candidates[i].1))
    ensures Entered(made, rules, made2, rules2, AskedAll(candidates[..i + 1]))
  {
    EnteredMore(made, rules, made1, rules1, AskedAll(candidates[..i]), made2, rules2, AskedOf(candidates[i].0) + AskedOf(candidates[i].1));
    hide Entered, AskedOf;
    assert candidates[..i + 1][..i] == candidates[..i];
    assert AskedAll(candidates[..i + 1]) == AskedAll(candidates[..i]) + (AskedOf(candidates[i].0) + AskedOf(candidates[i].1));
  }

  /** Rules with one text are in one group: those asked for, and those that the table has. */
  ghost predicate Agree(made: seq<Rule>, rules: map<string, nat>, asked: set<Rule>) {
    && (forall r :: r in asked && r.text in rules ==> rules[r.text] < |made| && made[rules[r.text]] == r)
    && forall r, s :: r in asked && s in asked && r.text == s.text ==> r == s
  }

  /** c is an object made for exactly this rule, with its group. */
  ghost predicate IsRule(made: seq<Rule>, c: Held, rule: MaybeRule) {
    && (c.Holding? <==> rule.Has?)
    && (c.Holding? ==> c.value < |made| && made[c.value] == rule.rule)
  }

  lemma AskedIsFound(made: seq<Rule>, rules: map<string, nat>, made': seq<Rule>, rules': map<string, nat>, asked: set<Rule>, r: Rule)
    requires Entered(made, rules, made', rules', asked) && Agree(made, rules, asked) && r in asked && r.text in rules'
    requires rules'[r.text] < |made'| && made'[rules'[r.text]].text == r.text
    ensures made'[rules'[r.text]] == r
  {}

  /** How much a norm has changed: by the nodes that hold a rule of the group now, and those that did before. */
  ghost function Norm(norms: map<nat, real>, alpha: real, g: nat): real {
    if g in norms then norms[g] else alpha
  }

  lemma NormIsTally(made: seq<Rule>, count: seq<int>, norms: map<nat, real>, alpha: real, nodes: seq<Held>, g: nat)
    requires Tallied(made, count, norms, alpha, nodes)
    ensures Norm(norms, alpha, g) == alpha + GroupUses(made, nodes, g) as real
  {
    if g !in norms { Unused(made, nodes, 0, g); }
  }

  lemma {:induction false} GroupOfAllMore(made: seq<Rule>, made': seq<Rule>, nodes: seq<Held>, g: nat)
    requires made <= made' && forall i :: 0 <= i < |nodes| && nodes[i].Holding? ==> nodes[i].value < |made|
    ensures GroupUses(made', nodes, g) == GroupUses(made, nodes, g)
  {
    if |nodes| > 0 { GroupOfAllMore(made, made', nodes[..|nodes| - 1], g); }
  }

  /** What node i holds now, and what it held, counted for the group. */
  ghost function Gain(made: seq<Rule>, nodes: seq<Held>, made': seq<Rule>, nodes': seq<Held>, i: nat, g: nat): int {
    if i < |nodes| && i < |nodes'| then One(InGroup(made', nodes'[i], g)) - One(InGroup(made, nodes[i], g)) else 0
  }

  /** The norms have changed by what the nodes of `changed` held and hold, and by nothing else. */
  ghost predicate NormsFollow(made: seq<Rule>, norms: map<nat, real>, nodes: seq<Held>, made': seq<Rule>, norms': map<nat, real>, nodes': seq<Held>,
                              alpha: real, changed: seq<nat>) {
    forall g: nat :: Norm(norms', alpha, g) == Norm(norms, alpha, g) + Gains(made, nodes, made', nodes', changed, g) as real
  }

  ghost function Gains(made: seq<Rule>, nodes: seq<Held>, made': seq<Rule>, nodes': seq<Held>, changed: seq<nat>, g: nat): int {
    if |changed| == 0 then 0 else
    Gain(made, nodes, made', nodes', changed[0], g) + Gains(made, nodes, made', nodes', changed[1..], g)
  }

  ghost predicate Distinct(s: seq<nat>) {
    forall i, j :: 0 <= i < j < |s| ==> s[i] != s[j]
  }

  lemma {:induction false} GroupGains(made: seq<Rule>, nodes: seq<Held>, nodes': seq<Held>, changed: seq<nat>, g: nat)
    requires |nodes'| == |nodes| && Distinct(changed) && forall k :: 0 <= k < |changed| ==> changed[k] < |nodes|
    requires forall i :: 0 <= i < |nodes| && i !in changed ==> nodes'[i] == nodes[i]
    ensures GroupUses(made, nodes', g) == GroupUses(made, nodes, g) + Gains(made, nodes, made, nodes', changed, g)
    decreases |changed|
  {
    hide Uses, GroupUses, InGroup;
    if |changed| == 0 {
      assert nodes' == nodes;
    } else {
      var i := changed[0];
      var nodes1 := nodes[i := nodes'[i]];
      UsesSet(made, nodes, i, nodes'[i], 0, g);
      GroupGains(made, nodes1, nodes', changed[1..], g);
      SameGains(made, made, nodes, nodes1, made, nodes', changed[1..], g);
    }
  }

  lemma {:induction false} SameGains(made: seq<Rule>, made1: seq<Rule>, nodes: seq<Held>, nodes1: seq<Held>, made': seq<Rule>, nodes': seq<Held>,
                                     changed: seq<nat>, g: nat)
    requires |nodes'| == |nodes1| == |nodes| && forall k :: 0 <= k < |changed| ==> changed[k] < |nodes| && nodes1[changed[k]] == nodes[changed[k]]
    requires made <= made1 && (made == made1 || forall i :: 0 <= i < |nodes| && nodes[i].Holding? ==> nodes[i].value < |made|)
    ensures Gains(made1, nodes1, made', nodes', changed, g) == Gains(made, nodes, made', nodes', changed, g)
    decreases |changed|
  {
    if |changed| > 0 {
      assert changed[0] in changed;
      SameGains(made, made1, nodes, nodes1, made', nodes', changed[1..], g);
    }
  }

  lemma NormsHaveFollowed(made: seq<Rule>, count: seq<int>, norms: map<nat, real>, nodes: seq<Held>,
                          made': seq<Rule>, count': seq<int>, norms': map<nat, real>, nodes': seq<Held>, alpha: real, changed: seq<nat>)
    requires Tallied(made, count, norms, alpha, nodes) && Tallied(made', count', norms', alpha, nodes') && made <= made'
    requires |nodes'| == |nodes| && Distinct(changed) && forall k :: 0 <= k < |changed| ==> changed[k] < |nodes|
    requires forall i :: 0 <= i < |nodes| && i !in changed ==> nodes'[i] == nodes[i]
    ensures NormsFollow(made, norms, nodes, made', norms', nodes', alpha, changed)
  {
    hide GroupUses, Uses, InGroup;
    forall g: nat ensures Norm(norms', alpha, g) == Norm(norms, alpha, g) + Gains(made, nodes, made', nodes', changed, g) as real {
      NormIsTally(made, count, norms, alpha, nodes, g);
      NormIsTally(made', count', norms', alpha, nodes', g);
      GroupOfAllMore(made, made', nodes, g);
      GroupGains(made', nodes, nodes', changed, g);
      SameGains(made, made', nodes, nodes, made', nodes', changed, g);
    }
  }

  class Counts {
    const alpha: real
    /** Every Count object made so far: its rule, its count. */
    var made: seq<Rule>
    var count: seq<int>
    var rules: map<string, nat>
    var norms: map<nat, real>
    /** node.count, for every node of every example. */
    var held: seq<Held>
    /** Whether node.span is not Unheld. */
    var spanned: seq<bool>

    /** No rule, or the Count object that the table has for its rule. */
    ghost predicate Listed(c: Held)
      reads this`made, this`rules
    {
      c.Holding? ==> c.value < |made| && made[c.value].text in rules && rules[made[c.value].text] == c.value
    }

    /** The counts are right for these nodes; nodes only hold what the table has. */
    ghost predicate Tally(nodes: seq<Held>)
      reads this`made, this`count, this`norms, this`rules
    {
      && Tallied(made, count, norms, alpha, nodes)
      && (forall text :: text in rules ==> rules[text] < |made| && made[rules[text]].text == text)
      && forall i :: 0 <= i < |nodes| ==> Listed(nodes[i])
    }

    ghost predicate Valid()
      reads this
    {
      Tally(held)
    }

    /** A node has a count exactly if it has a span. */
    ghost predicate Consistent()
      reads this
    {
      Valid() && |spanned| == |held| && forall i :: 0 <= i < |held| ==> (held[i].Holding? <==> spanned[i])
    }

    /** c is the Count object of the rule, or there is neither. */
    ghost predicate Holds(c: Held, rule: MaybeRule)
      reads this`made, this`rules
    {
      && Listed(c) && (c.Holding? <==> rule.Has?)
      && (c.Holding? ==> made[c.value].text == rule.rule.text)
    }

    /** The table has grown. */
    twostate predicate Grew()
      reads this
    {
      && old(made) <= made && held == old(held)
      && (forall c: Held :: old(Listed(c)) ==> Listed(c))
      && (forall c: Held, rule: MaybeRule :: old(Holds(c, rule)) ==> Holds(c, rule))
    }

    lemma Listings(nodes: seq<Held>, i: nat)
      requires Tally(nodes) && i < |nodes|
      ensures Listed(nodes[i])
    {}

    lemma TwoMore(nodes: seq<Held>)
      requires Tally(nodes)
      ensures Tally(nodes + [Unheld, Unheld])
    {
      TallyMoves(made, count, norms, alpha, nodes, nodes + [Unheld, Unheld]);
      hide Tallied;
    }

    lemma TwoFewer(nodes: seq<Held>)
      requires Tally(nodes + [Unheld, Unheld])
      ensures Tally(nodes)
    {
      TallyTrims(made, count, norms, alpha, nodes);
      hide Tallied;
      forall i | 0 <= i < |nodes| ensures Listed(nodes[i]) {
        assert (nodes + [Unheld, Unheld])[i] == nodes[i];
      }
    }

    lemma Exchange(nodes: seq<Held>, i: nat, j: nat)
      requires Tally(nodes) && i < |nodes| && j < |nodes| && i != j && nodes[j] == Unheld
      ensures Tally(nodes[i := Unheld][j := nodes[i]])
    {
      TallyExchanges(made, count, norms, alpha, nodes, i, j);
      hide Tallied;
    }

    constructor (alpha: real, nodes: nat)
      ensures this.alpha == alpha && Consistent() && held == seq(nodes, _ => Unheld) && made == []
    {
      this.alpha := alpha;
      made, count, rules, norms := [], [], map[], map[];
      held, spanned := seq(nodes, _ => Unheld), seq(nodes, _ => false);
    }

    /** add, for a node i that gets the rule or had it; nothing for no rule. */
    method Add(c: Held, d: int, ghost nodes: seq<Held>, ghost i: nat)
      requires Tally(nodes) && i < |nodes| && Listed(c)
      requires (d == 1 && nodes[i] == Unheld) || (d == -1 && nodes[i] == c)
      modifies this`count, this`norms
      ensures Tally(nodes[i := if d == 1 then c else Unheld])
      ensures c.Unheld? ==> norms == old(norms) && count == old(count)
      ensures c.Holding? ==> Adds(made, old(count), old(norms), count, norms, c.value, d)
    {
      hide Tallied;
      if c.Unheld? {
        assert nodes[i := Unheld] == nodes;
        return;
      }
      TallySets(made, count, norms, alpha, nodes, i, c.value, d);
      var g := made[c.value].group;
      assert |count| == |made| by { CountLength(made, count, norms, alpha, nodes); }
      norms := norms[g := norms[g] + d as real];
      count := count[c.value := count[c.value] + d];
    }

    /** get: the Count object of a rule, new, in the rule's group and with the group's sum, if the table has none. */
    method Get(rule: Rule, ghost nodes: seq<Held>) returns (c: nat)
      requires Tally(nodes)
      modifies this`made, this`count, this`rules, this`norms
      ensures Tally(nodes) && Grew() && Holds(Holding(c), Has(rule))
      ensures rule.text in old(rules) ==> c == old(rules)[rule.text] && Unchanged()
      ensures rule.text !in old(rules) ==> NewObject(rule, c)
      ensures Entered(old(made), old(rules), made, rules, {rule})
    {
      hide Tallied;
      if rule.text in rules {
        return rules[rule.text];
      }
      c := NewCount(rule, nodes);
    }

    twostate predicate Unchanged()
      reads this
    {
      made == old(made) && count == old(count) && rules == old(rules) && norms == old(norms)
    }

    /** One more Count object, of count 0, for exactly this rule; its group has a norm. */
    twostate predicate NewObject(rule: Rule, c: nat)
      reads this
    {
      && c == |old(made)| && made == old(made) + [rule] && count == old(count) + [0] && rules == old(rules)[rule.text := c]
      && norms == if rule.group in old(norms) then old(norms) else old(norms)[rule.group := alpha]
    }

    method NewCount(rule: Rule, ghost nodes: seq<Held>) returns (c: nat)
      requires Tally(nodes) && rule.text !in rules
      modifies this`made, this`count, this`rules, this`norms
      ensures Tally(nodes) && Grew() && Holds(Holding(c), Has(rule))
      ensures NewObject(rule, c) && Entered(old(made), old(rules), made, rules, {rule})
    {
      hide Tallied, Entered;
      TallyNewRule(made, count, norms, alpha, nodes, rule);
      EnteredOne(made, rules, rule);
      assert |count| == |made| by { CountLength(made, count, norms, alpha, nodes); }
      if rule.group !in norms { norms := norms[rule.group := alpha]; }
      c := |made|;
      made, count := made + [rule], count + [0];
      rules := rules[rule.text := c];
    }

    /** count_for_node: none for a node without a span. */
    method CountForNode(rule: MaybeRule, ghost nodes: seq<Held>) returns (c: Held)
      requires Tally(nodes)
      modifies this`made, this`count, this`rules, this`norms
      ensures Tally(nodes) && Grew() && Holds(c, rule)
      ensures rule.NoRule? ==> c == Unheld && Unchanged()
      ensures rule.Has? && rule.rule.text in old(rules) ==> c == Holding(old(rules)[rule.rule.text]) && Unchanged()
      ensures rule.Has? && rule.rule.text !in old(rules) ==> c.Holding? && NewObject(rule.rule, c.value)
      ensures Entered(old(made), old(rules), made, rules, AskedOf(rule))
    {
      hide Tallied;
      if rule.NoRule? { return Unheld; }
      var r := Get(rule.rule, nodes);
      c := Holding(r);
    }

    /** The rules that a node and its parent rule's node have after a candidate span is chosen. */
    ghost predicate Chosen(pair: (Held, Held), rules: (MaybeRule, MaybeRule))
      reads this`made, this`rules
    {
      Holds(pair.0, rules.0) && Holds(pair.1, rules.1)
    }

    /** expand: the node gets the span that is chosen; its parent rule's node has a span, and keeps it. */
    method Expand(node: nat, par: nat, candidates: seq<(MaybeRule, MaybeRule)>, choice: nat)
      requires Consistent() && node < |held| && par < |held| && node != par && choice <= |candidates|
      requires spanned[par] && forall k :: 0 <= k < |candidates| ==> candidates[k].1.Has?
      modifies this`made, this`count, this`rules, this`norms, this`held, this`spanned
      ensures Consistent() && old(made) <= made && |held| == |old(held)|
      ensures held == old(held)[node := held[node]][par := held[par]]
      ensures spanned == if choice == 0 then old(spanned) else old(spanned)[node := candidates[choice - 1].0.Has?]
      ensures choice == 0 ==> held == old(held)
      ensures choice > 0 ==> Chosen((held[node], held[par]), candidates[choice - 1])
      ensures NormsFollow(old(made), old(norms), old(held), made, norms, held, alpha, [node, par])
      ensures choice > 0 && Agree(old(made), old(rules), AskedAll(candidates)) ==>
        IsRule(made, held[node], candidates[choice - 1].0) && IsRule(made, held[par], candidates[choice - 1].1)
    {
      hide Tallied, Tally, Listed, Entered, Agree, IsRule, AskedAll, AskedOf, NormsFollow;
      assert Tallied(made, count, norms, alpha, held) by { IsTallied(); }
      ExpandRules(node, par, candidates, choice);
      Followed(old(made), old(count), old(norms), old(held), [node, par]);
      if choice > 0 && Agree(old(made), old(rules), AskedAll(candidates)) {
        AskedAllHas(candidates, choice - 1);
        HeldAsAsked(old(made), old(rules), AskedAll(candidates), held[node], candidates[choice - 1].0);
        HeldAsAsked(old(made), old(rules), AskedAll(candidates), held[par], candidates[choice - 1].1);
      }
      if choice > 0 { spanned := spanned[node := candidates[choice - 1].0.Has?]; }
    }

    /** The node and its parent rule's node give up their rules; each candidate span is tried and put back; one of the pairs,
      * the old one first, is chosen at random. */
    method ExpandRules(node: nat, par: nat, candidates: seq<(MaybeRule, MaybeRule)>, choice: nat)
      requires Valid() && node < |held| && par < |held| && node != par && choice <= |candidates|
      modifies this`made, this`count, this`rules, this`norms, this`held
      ensures Valid() && old(made) <= made && |held| == |old(held)|
      ensures held == old(held)[node := held[node]][par := held[par]]
      ensures choice == 0 ==> held == old(held)
      ensures choice > 0 ==> Chosen((held[node], held[par]), candidates[choice - 1])
      ensures Entered(old(made), old(rules), made, rules, AskedAll(candidates))
    {
      hide Tally, Holds, Listed, Entered, AskedAll, Adds;
      NoneAsked(made, rules);
      var oldpc, oldnc := held[par], held[node];
      TakeOutTwo(par, node);
      ghost var nodes := held[par := Unheld][node := Unheld];
      var news := [(oldnc, oldpc)];
      for i := 0 to |candidates|
        invariant Tally(nodes) && Grew() && Entered(old(made), old(rules), made, rules, AskedAll(candidates[..i]))
        invariant |news| == i + 1 && news[0] == (oldnc, oldpc)
        invariant forall k :: 0 <= k < |news| ==> Listed(news[k].0) && Listed(news[k].1)
        invariant forall k :: 0 <= k < i ==> Chosen(news[k + 1], candidates[k])
      {
        ghost var made1, rules1 := made, rules;
        var pair := Consider(node, par, candidates[i], nodes);
        OneMoreAsked(old(made), old(rules), made1, rules1, made, rules, candidates, i);
        news := news + [pair];
      }
      assert candidates[..|candidates|] == candidates;
      var (nc, pc) := news[choice];
      Add(pc, 1, nodes, par);
      Add(nc, 1, nodes[par := pc], node);
      assert nodes[par := pc][node := nc] == held[node := nc][par := pc];
      held := held[node := nc][par := pc];
    }

    method TakeOutTwo(par: nat, node: nat)
      requires Valid() && node < |held| && par < |held| && node != par
      modifies this`count, this`norms
      ensures Tally(held[par := Unheld][node := Unheld]) && Listed(held[par]) && Listed(held[node])
    {
      hide Tally, Listed, Adds;
      Listings(held, par);
      Listings(held, node);
      Add(held[par], -1, held, par);
      Add(held[node], -1, held[par := Unheld], node);
    }

    /** consider_span: the candidate's rules, the parent's counted while the node's is looked up. */
    method Consider(node: nat, par: nat, candidate: (MaybeRule, MaybeRule), ghost nodes: seq<Held>)
      returns (pair: (Held, Held))
      requires Tally(nodes) && par < |nodes| && nodes[par] == Unheld
      modifies this`made, this`count, this`rules, this`norms
      ensures Tally(nodes) && Grew() && Chosen(pair, candidate) && Listed(pair.0) && Listed(pair.1)
      ensures Entered(old(made), old(rules), made, rules, AskedOf(candidate.0) + AskedOf(candidate.1))
    {
      hide Tally, Holds, Listed, Entered, Unchanged, NewObject, Adds;
      var parc := CountForNode(candidate.1, nodes);
      AreListed(parc, candidate.1);
      Add(parc, 1, nodes, par);
      ghost var made1, rules1 := made, rules;
      var newc := CountForNode(candidate.0, nodes[par := parc]);
      AreListed(newc, candidate.0);
      EnteredMore(old(made), old(rules), made1, rules1, AskedOf(candidate.1), made, rules, AskedOf(candidate.0));
      assert AskedOf(candidate.1) + AskedOf(candidate.0) == AskedOf(candidate.0) + AskedOf(candidate.1);
      Add(parc, -1, nodes[par := parc], par);
      assert nodes[par := parc][par := Unheld] == nodes;
      pair := (newc, parc);
    }

    lemma AreListed(c: Held, rule: MaybeRule)
      requires Holds(c, rule)
      ensures Listed(c)
    {}

    /** swap: two nodes exchange spans, so that they and their parent rule's node change rules; or, at random, do not. */
    method Swap(n1: nat, n2: nat, par: nat, newp: MaybeRule, newr1: MaybeRule, newr2: MaybeRule, useNew: bool)
      requires Consistent() && n1 < |held| && n2 < |held| && par < |held| && n1 != n2 && n1 != par && n2 != par
      requires spanned[par] && newp.Has? && (newr1.Has? <==> spanned[n2]) && (newr2.Has? <==> spanned[n1])
      modifies this`made, this`count, this`rules, this`norms, this`held, this`spanned
      ensures Consistent() && old(made) <= made && |held| == |old(held)|
      ensures held == old(held)[par := held[par]][n1 := held[n1]][n2 := held[n2]]
      ensures spanned == if useNew then old(spanned)[n1 := old(spanned)[n2]][n2 := old(spanned)[n1]] else old(spanned)
      ensures !useNew || !(old(spanned)[n1] || old(spanned)[n2]) ==> held == old(held)
      ensures useNew && (old(spanned)[n1] || old(spanned)[n2]) ==>
        Holds(held[par], newp) && Holds(held[n1], newr1) && Holds(held[n2], newr2)
      ensures NormsFollow(old(made), old(norms), old(held), made, norms, held, alpha, [par, n1, n2])
      ensures useNew && (old(spanned)[n1] || old(spanned)[n2]) && Agree(old(made), old(rules), AskedOf(newp) + AskedOf(newr1) + AskedOf(newr2)) ==>
        IsRule(made, held[par], newp) && IsRule(made, held[n1], newr1) && IsRule(made, held[n2], newr2)
    {
      hide Tallied, Tally, Listed, Holds, Entered, Agree, IsRule, NormsFollow, AskedOf;
      assert Tallied(made, count, norms, alpha, held) by { IsTallied(); }
      SwapAll(n1, n2, par, newp, newr1, newr2, useNew);
      Followed(old(made), old(count), old(norms), old(held), [par, n1, n2]);
      if useNew && (old(spanned)[n1] || old(spanned)[n2]) && Agree(old(made), old(rules), AskedOf(newp) + AskedOf(newr1) + AskedOf(newr2)) {
        HeldAsAsked(old(made), old(rules), AskedOf(newp) + AskedOf(newr1) + AskedOf(newr2), held[par], newp);
        HeldAsAsked(old(made), old(rules), AskedOf(newp) + AskedOf(newr1) + AskedOf(newr2), held[n1], newr1);
        HeldAsAsked(old(made), old(rules), AskedOf(newp) + AskedOf(newr1) + AskedOf(newr2), held[n2], newr2);
      }
    }

    lemma IsTallied()
      requires Valid()
      ensures Tallied(made, count, norms, alpha, held)
    {}

    /** The rules asked for agree on their groups: a node holds an object of exactly the rule. */
    lemma HeldAsAsked(made0: seq<Rule>, rules0: map<string, nat>, asked: set<Rule>, c: Held, rule: MaybeRule)
      requires Entered(made0, rules0, made, rules, asked) && Agree(made0, rules0, asked) && AskedOf(rule) <= asked && Holds(c, rule)
      ensures IsRule(made, c, rule)
    {
      if c.Holding? { AskedIsFound(made0, rules0, made, rules, asked, rule.rule); }
    }

    lemma Followed(made0: seq<Rule>, count0: seq<int>, norms0: map<nat, real>, held0: seq<Held>, changed: seq<nat>)
      requires Tallied(made0, count0, norms0, alpha, held0) && Valid() && made0 <= made && |held| == |held0|
      requires Distinct(changed) && forall k :: 0 <= k < |changed| ==> changed[k] < |held|
      requires forall i :: 0 <= i < |held| && i !in changed ==> held[i] == held0[i]
      ensures NormsFollow(made0, norms0, held0, made, norms, held, alpha, changed)
    {
      NormsHaveFollowed(made0, count0, norms0, held0, made, count, norms, held, alpha, changed);
    }

    method SwapAll(n1: nat, n2: nat, par: nat, newp: MaybeRule, newr1: MaybeRule, newr2: MaybeRule, useNew: bool)
      requires Consistent() && n1 < |held| && n2 < |held| && par < |held| && n1 != n2 && n1 != par && n2 != par
      requires spanned[par] && newp.Has? && (newr1.Has? <==> spanned[n2]) && (newr2.Has? <==> spanned[n1])
      modifies this`made, this`count, this`rules, this`norms, this`held, this`spanned
      ensures Consistent() && old(made) <= made && |held| == |old(held)|
      ensures held == old(held)[par := held[par]][n1 := held[n1]][n2 := held[n2]]
      ensures spanned == if useNew then old(spanned)[n1 := old(spanned)[n2]][n2 := old(spanned)[n1]] else old(spanned)
      ensures !useNew || !(old(spanned)[n1] || old(spanned)[n2]) ==> held == old(held)
      ensures useNew && (old(spanned)[n1] || old(spanned)[n2]) ==>
        Holds(held[par], newp) && Holds(held[n1], newr1) && Holds(held[n2], newr2)
      ensures Entered(old(made), old(rules), made, rules, AskedOf(newp) + AskedOf(newr1) + AskedOf(newr2))
    {
      hide Tally, Listed, AskedOf;
      ghost var before := spanned;
      if !spanned[n1] && !spanned[n2] {
        assert before[n1 := before[n2]][n2 := before[n1]] == before;
        return;
      }
      SwapSpans(n1, n2);
      SwapRules(n1, n2, par, newp, newr1, newr2, useNew);
      if !useNew {
        SwapSpans(n1, n2);
        assert spanned == before;
      }
    }

    /** swap_spans */
    method SwapSpans(n1: nat, n2: nat)
      requires n1 < |spanned| && n2 < |spanned|
      modifies this`spanned
      ensures spanned == old(spanned)[n1 := old(spanned)[n2]][n2 := old(spanned)[n1]]
    {
      var s1 := spanned[n1];
      spanned := spanned[n1 := spanned[n2]];
      spanned := spanned[n2 := s1];
    }

    method SwapRules(n1: nat, n2: nat, par: nat, newp: MaybeRule, newr1: MaybeRule, newr2: MaybeRule, useNew: bool)
      requires Valid() && n1 < |held| && n2 < |held| && par < |held| && n1 != n2 && n1 != par && n2 != par
      modifies this`made, this`count, this`rules, this`norms, this`held
      ensures Valid() && old(made) <= made && |held| == |old(held)|
      ensures held == old(held)[par := held[par]][n1 := held[n1]][n2 := held[n2]]
      ensures !useNew ==> held == old(held)
      ensures useNew ==> Holds(held[par], newp) && Holds(held[n1], newr1) && Holds(held[n2], newr2)
      ensures Entered(old(made), old(rules), made, rules, AskedOf(newp) + AskedOf(newr1) + AskedOf(newr2))
    {
      hide Tally, Holds, Listed, Entered, AskedOf, Adds;
      var cold1, cold2, pold := held[n1], held[n2], held[par];
      ghost var nodes := held[par := Unheld][n1 := Unheld][n2 := Unheld];
      var newpc, new1, new2 := TakeOutAndLookUp(par, n1, n2, newp, newr1, newr2);
      Add(newpc, 1, nodes, par);
      Add(new1, 1, nodes[par := newpc], n1);
      if !useNew {
        SwapBack(nodes, par, n1, n2, newpc, new1, pold, cold1, cold2);
        assert nodes[par := pold][n1 := cold1][n2 := cold2] == held;
      } else {
        Add(new2, 1, nodes[par := newpc][n1 := new1], n2);
        assert nodes[par := newpc][n1 := new1][n2 := new2] == held[par := newpc][n1 := new1][n2 := new2];
        held := held[par := newpc][n1 := new1][n2 := new2];
      }
    }

    /** The old rules are taken out, then the new ones looked up. */
    method TakeOutAndLookUp(par: nat, n1: nat, n2: nat, newp: MaybeRule, newr1: MaybeRule, newr2: MaybeRule) returns (newpc: Held, new1: Held, new2: Held)
      requires Valid() && n1 < |held| && n2 < |held| && par < |held| && n1 != n2 && n1 != par && n2 != par
      modifies this`made, this`count, this`rules, this`norms
      ensures Tally(held[par := Unheld][n1 := Unheld][n2 := Unheld]) && old(made) <= made
      ensures Listed(held[par]) && Listed(held[n1]) && Listed(held[n2])
      ensures Holds(newpc, newp) && Holds(new1, newr1) && Holds(new2, newr2) && Listed(newpc) && Listed(new1) && Listed(new2)
      ensures Entered(old(made), old(rules), made, rules, AskedOf(newp) + AskedOf(newr1) + AskedOf(newr2))
    {
      hide Tally, Holds, Listed, Entered, AskedOf, Adds;
      TakeOut(par, n1, n2);
      newpc, new1, new2 := CountThree(newp, newr1, newr2, held[par := Unheld][n1 := Unheld][n2 := Unheld]);
    }

    /** Three nodes give up their rules. */
    method TakeOut(par: nat, n1: nat, n2: nat)
      requires Valid() && n1 < |held| && n2 < |held| && par < |held| && n1 != n2 && n1 != par && n2 != par
      modifies this`count, this`norms
      ensures Tally(held[par := Unheld][n1 := Unheld][n2 := Unheld])
      ensures Listed(held[par]) && Listed(held[n1]) && Listed(held[n2])
    {
      hide Tally, Holds, Listed, Adds;
      Listings(held, par);
      Listings(held, n1);
      Listings(held, n2);
      Add(held[par], -1, held, par);
      Add(held[n1], -1, held[par := Unheld], n1);
      Add(held[n2], -1, held[par := Unheld][n1 := Unheld], n2);
    }

    method CountThree(newp: MaybeRule, newr1: MaybeRule, newr2: MaybeRule, ghost nodes: seq<Held>) returns (newpc: Held, new1: Held, new2: Held)
      requires Tally(nodes)
      modifies this`made, this`count, this`rules, this`norms
      ensures Tally(nodes) && Grew() && Holds(newpc, newp) && Holds(new1, newr1) && Holds(new2, newr2)
      ensures Listed(newpc) && Listed(new1) && Listed(new2)
      ensures Entered(old(made), old(rules), made, rules, AskedOf(newp) + AskedOf(newr1) + AskedOf(newr2))
    {
      hide Tally, Holds, Listed, Entered, AskedOf, Unchanged, NewObject;
      newpc := CountForNode(newp, nodes);
      ghost var made1, rules1 := made, rules;
      new1 := CountForNode(newr1, nodes);
      EnteredMore(old(made), old(rules), made1, rules1, AskedOf(newp), made, rules, AskedOf(newr1));
      ghost var made2, rules2 := made, rules;
      new2 := CountForNode(newr2, nodes);
      EnteredMore(old(made), old(rules), made2, rules2, AskedOf(newp) + AskedOf(newr1), made, rules, AskedOf(newr2));
      AreListed(newpc, newp);
      AreListed(new1, newr1);
      AreListed(new2, newr2);
    }

    /** The new rules step aside, to two places at the end. */
    lemma StepAside(nodes: seq<Held>, par: nat, n1: nat, newpc: Held, new1: Held)
      requires par < |nodes| && n1 < |nodes| && n1 != par && nodes[par] == Unheld && nodes[n1] == Unheld
      requires Tally(nodes[par := newpc][n1 := new1])
      ensures Tally(nodes + [newpc, new1])
    {
      hide Tally, Listed;
      var n := |nodes|;
      var both := nodes[par := newpc][n1 := new1] + [Unheld, Unheld];
      TwoMore(nodes[par := newpc][n1 := new1]);
      Exchange(both, par, n);
      Exchange(both[par := Unheld][n := newpc], n1, n + 1);
      assert both[par := Unheld][n := newpc][n1 := Unheld][n + 1 := new1] == nodes + [newpc, new1];
    }

    /** The old rules are counted again, then the new ones taken back. */
    method SwapBack(ghost nodes: seq<Held>, ghost par: nat, ghost n1: nat, ghost n2: nat,
                    newpc: Held, new1: Held, pold: Held, cold1: Held, cold2: Held)
      requires par < |nodes| && n1 < |nodes| && n2 < |nodes| && n1 != n2 && n1 != par && n2 != par
      requires nodes[par] == Unheld && nodes[n1] == Unheld && nodes[n2] == Unheld
      requires Tally(nodes[par := newpc][n1 := new1])
      requires Listed(newpc) && Listed(new1) && Listed(pold) && Listed(cold1) && Listed(cold2)
      modifies this`count, this`norms
      ensures Tally(nodes[par := pold][n1 := cold1][n2 := cold2])
    {
      hide Tally, Listed;
      StepAside(nodes, par, n1, newpc, new1);
      CountAgain(nodes, par, n1, n2, newpc, new1, pold, cold1, cold2);
      TakeBack(nodes[par := pold][n1 := cold1][n2 := cold2], newpc, new1);
    }

    method CountAgain(ghost nodes: seq<Held>, ghost par: nat, ghost n1: nat, ghost n2: nat,
                      ghost newpc: Held, ghost new1: Held, pold: Held, cold1: Held, cold2: Held)
      requires par < |nodes| && n1 < |nodes| && n2 < |nodes| && n1 != n2 && n1 != par && n2 != par
      requires nodes[par] == Unheld && nodes[n1] == Unheld && nodes[n2] == Unheld
      requires Tally(nodes + [newpc, new1]) && Listed(pold) && Listed(cold1) && Listed(cold2)
      modifies this`count, this`norms
      ensures Tally(nodes[par := pold][n1 := cold1][n2 := cold2] + [newpc, new1])
    {
      hide Tally, Listed, Adds;
      ghost var aside := nodes + [newpc, new1];
      Add(pold, 1, aside, par);
      Add(cold1, 1, aside[par := pold], n1);
      Add(cold2, 1, aside[par := pold][n1 := cold1], n2);
      assert aside[par := pold][n1 := cold1][n2 := cold2] == nodes[par := pold][n1 := cold1][n2 := cold2] + [newpc, new1];
    }

    method TakeBack(ghost nodes: seq<Held>, newpc: Held, new1: Held)
      requires Tally(nodes + [newpc, new1]) && Listed(newpc) && Listed(new1)
      modifies this`count, this`norms
      ensures Tally(nodes)
    {
      hide Tally, Listed, Adds;
      ghost var n := |nodes|;
      Add(newpc, -1, nodes + [newpc, new1], n);
      assert (nodes + [newpc, new1])[n := Unheld] == nodes + [Unheld, new1];
      Add(new1, -1, nodes + [Unheld, new1], n + 1);
      assert (nodes + [Unheld, new1])[n + 1 := Unheld] == nodes + [Unheld, Unheld];
      TwoFewer(nodes);
    }

    /** del_0count: rules that no node holds leave the table. */
    method DelZeroCount() returns (deleted: nat, before: nat)
      requires Valid()
      modifies this`rules
      ensures Valid() && before == |old(rules)| && deleted == before - |rules|
      ensures forall text :: text in rules <==> text in old(rules) && Holding(old(rules)[text]) in held
    {
      hide Tally;
      TableOk();
      before, deleted := |rules|, 0;
      var todo := rules.Keys;
      while todo != {}
        invariant todo <= rules.Keys && rules.Keys <= old(rules).Keys && Valid() && deleted == before - |rules|
        invariant forall text :: text in rules ==> rules[text] == old(rules)[text]
        invariant forall text :: text in old(rules) && text !in todo ==> (text in rules <==> Holding(old(rules)[text]) in held)
        decreases todo
      {
        var text :| text in todo;
        todo := todo - {text};
        var zero := DropIfZero(text);
        if zero { deleted := deleted + 1; }
      }
    }

    method DropIfZero(text: string) returns (zero: bool)
      requires Valid() && text in rules
      modifies this`rules
      ensures Valid() && (zero <==> Holding(old(rules)[text]) !in held)
      ensures rules == if zero then old(rules) - {text} else old(rules)
      ensures |rules| == |old(rules)| - if zero then 1 else 0
    {
      hide Tallied;
      CountIsUse(made, count, norms, alpha, held, rules[text]);
      zero := count[rules[text]] == 0;
      if zero {
        Removed(rules, text);
        Unneeded(text);
        rules := rules - {text};
      }
    }

    lemma TableOk()
      requires Valid()
      ensures forall text :: text in rules ==> rules[text] < |made|
    {}

    lemma Unneeded(text: string)
      requires Valid() && text in rules && Holding(rules[text]) !in held
      ensures forall i :: 0 <= i < |held| && held[i].Holding? ==> made[held[i].value].text != text
    {
      forall i | 0 <= i < |held| && held[i].Holding? ensures made[held[i].value].text != text {
        assert Listed(held[i]);
      }
    }
  }

  lemma CountIsUse(made: seq<Rule>, count: seq<int>, norms: map<nat, real>, alpha: real, nodes: seq<Held>, r: nat)
    requires Tallied(made, count, norms, alpha, nodes) && r < |made|
    ensures |count| == |made| && (count[r] == 0 <==> Holding(r) !in nodes)
  {
    UsedIsHeld(nodes, r);
  }

  lemma Removed(rules: map<string, nat>, text: string)
    requires text in rules
    ensures |rules - {text}| == |rules| - 1
  {
    assert rules.Keys == (rules - {text}).Keys + {text};
    assert |rules.Keys| == |rules| && |(rules - {text}).Keys| == |rules - {text}|;
  }

  /** Two more nodes without rules. */
  lemma TallyMoves(made: seq<Rule>, count: seq<int>, norms: map<nat, real>, alpha: real, nodes: seq<Held>, more: seq<Held>)
    requires Tallied(made, count, norms, alpha, nodes) && more == nodes + [Unheld, Unheld]
    ensures Tallied(made, count, norms, alpha, more)
  {
    assert more == nodes + [Unheld] + [Unheld];
    forall r: nat ensures Uses(nodes, r) == Uses(more, r) {
      UsesMore(made, nodes, r, 0);
      UsesMore(made, nodes + [Unheld], r, 0);
    }
    forall g: nat ensures GroupUses(made, nodes, g) == GroupUses(made, more, g) {
      UsesMore(made, nodes, 0, g);
      UsesMore(made, nodes + [Unheld], 0, g);
    }
    TallySame(made, count, norms, alpha, nodes, more);
  }

  lemma TallyTrims(made: seq<Rule>, count: seq<int>, norms: map<nat, real>, alpha: real, nodes: seq<Held>)
    requires Tallied(made, count, norms, alpha, nodes + [Unheld, Unheld])
    ensures Tallied(made, count, norms, alpha, nodes)
  {
    var more := nodes + [Unheld, Unheld];
    assert more == nodes + [Unheld] + [Unheld];
    forall r: nat ensures Uses(nodes, r) == Uses(more, r) {
      UsesMore(made, nodes, r, 0);
      UsesMore(made, nodes + [Unheld], r, 0);
    }
    forall g: nat ensures GroupUses(made, nodes, g) == GroupUses(made, more, g) {
      UsesMore(made, nodes, 0, g);
      UsesMore(made, nodes + [Unheld], 0, g);
    }
    assert forall i :: 0 <= i < |nodes| ==> more[i] == nodes[i];
    TallySame(made, count, norms, alpha, more, nodes);
  }

  /** A rule moves to a node that has none. */
  lemma TallyExchanges(made: seq<Rule>, count: seq<int>, norms: map<nat, real>, alpha: real, nodes: seq<Held>, i: nat, j: nat)
    requires Tallied(made, count, norms, alpha, nodes) && i < |nodes| && j < |nodes| && i != j && nodes[j] == Unheld
    ensures Tallied(made, count, norms, alpha, nodes[i := Unheld][j := nodes[i]])
  {
    var moved := nodes[i := Unheld][j := nodes[i]];
    forall r: nat ensures Uses(nodes, r) == Uses(moved, r) {
      UsesSet(made, nodes, i, Unheld, r, 0);
      UsesSet(made, nodes[i := Unheld], j, nodes[i], r, 0);
    }
    forall g: nat ensures GroupUses(made, nodes, g) == GroupUses(made, moved, g) {
      UsesSet(made, nodes, i, Unheld, 0, g);
      UsesSet(made, nodes[i := Unheld], j, nodes[i], 0, g);
    }
    TallySame(made, count, norms, alpha, nodes, moved);
  }

  lemma CountLength(made: seq<Rule>, count: seq<int>, norms: map<nat, real>, alpha: real, nodes: seq<Held>)
    requires Tallied(made, count, norms, alpha, nodes)
    ensures |count| == |made|
  {}
}
