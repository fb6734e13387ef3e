/** Counting, Witten-Bell training and interpolation (sblm/ngram.py). */
module NgramTraining {
  import opened Weights
  import opened SetSums
  import opened Ngrams
  import opened Options

  ghost function CountOf(counts: map<Gram, int>): Gram -> real {
    k => if k in counts then counts[k] as real else 0.0
  }

  ghost function Among(keys: set<Gram>, c: Gram): set<Gram> {
    set k | k in keys && |k| > 0 && Context(k) == c
  }

  /** How often the grams occur that follow c. */
  ghost function Total(counts: map<Gram, int>, keys: set<Gram>, c: Gram): real {
    SumOver(Among(keys, c), CountOf(counts))
  }

  /** How many grams follow each context, and how often. */
  ghost predicate Sums(counts: map<Gram, int>, keys: set<Gram>, types: map<Gram, nat>, sums: map<Gram, real>) {
    && types.Keys == sums.Keys
    && (forall c :: c in types <==> Among(keys, c) != {})
    && (forall c :: c in types ==> types[c] == |Among(keys, c)| && sums[c] == Total(counts, keys, c))
  }

  lemma AmongGrows(counts: map<Gram, int>, keys: set<Gram>, k: Gram, d: Gram)
    requires k in counts && k !in keys && |k| > 0
    ensures d != Context(k) ==> Among(keys + {k}, d) == Among(keys, d) && Total(counts, keys + {k}, d) == Total(counts, keys, d)
    ensures d == Context(k) ==> |Among(keys + {k}, d)| == |Among(keys, d)| + 1 && Among(keys + {k}, d) != {}
    ensures d == Context(k) ==> Total(counts, keys + {k}, d) == Total(counts, keys, d) + counts[k] as real
    ensures Among(keys, d) == {} ==> |Among(keys, d)| == 0 && Total(counts, keys, d) == 0.0
  {
    assert Among(keys + {k}, d) == if d == Context(k) then Among(keys, d) + {k} else Among(keys, d);
    SumAdds(Among(keys, d), CountOf(counts), k);
  }

  lemma SumsGrow(counts: map<Gram, int>, keys: set<Gram>, types: map<Gram, nat>, sums: map<Gram, real>, k: Gram)
    requires Sums(counts, keys, types, sums) && k in counts && k !in keys && |k| > 0
    ensures var c := Context(k);
      Sums(counts, keys + {k}, types[c := (if c in types then types[c] else 0) + 1],
           sums[c := (if c in sums then sums[c] else 0.0) + counts[k] as real])
  {
    hide Among, Total;
    forall d ensures Among(keys + {k}, d) != {} <==> d == Context(k) || Among(keys, d) != {} {
      AmongGrows(counts, keys, k, d);
    }
    forall d | d in types || d == Context(k)
      ensures |Among(keys + {k}, d)| == |Among(keys, d)| + if d == Context(k) then 1 else 0
      ensures Total(counts, keys + {k}, d) == Total(counts, keys, d) + if d == Context(k) then counts[k] as real else 0.0
      ensures d !in types ==> |Among(keys, d)| == 0 && Total(counts, keys, d) == 0.0
    {
      AmongGrows(counts, keys, k, d);
    }
  }

  lemma NoSums(counts: map<Gram, int>)
    ensures Sums(counts, {}, map[], map[])
  {
    forall c ensures Among({}, c) == {} {}
  }

  /** The sums over all grams. */
  method SumCounts(counts: map<Gram, int>) returns (types: map<Gram, nat>, sums: map<Gram, real>)
    requires forall k :: k in counts ==> |k| > 0
    ensures Sums(counts, counts.Keys, types, sums)
  {
    hide Among, Sums;
    types, sums := map[], map[];
    NoSums(counts);
    var todo := counts.Keys;
    assert counts.Keys - todo == {};
    while todo != {}
      invariant todo <= counts.Keys && Sums(counts, counts.Keys - todo, types, sums)
    {
      var k :| k in todo;
      SumsGrow(counts, counts.Keys - todo, types, sums, k);
      assert counts.Keys - (todo - {k}) == counts.Keys - todo + {k};
      todo := todo - {k};
      var c := Context(k);
      types := types[c := (if c in types then types[c] else 0) + 1];
      sums := sums[c := (if c in sums then sums[c] else 0.0) + counts[k] as real];
    }
    assert counts.Keys - todo == counts.Keys;
  }

  lemma {:induction false} SumNotNegative(s: set<Gram>, f: Gram -> real)
    requires forall x :: x in s ==> f(x) >= 0.0
    ensures SumOver(s, f) >= 0.0
    ensures SumOver(s, f) == 0.0 ==> forall x :: x in s ==> f(x) == 0.0
    decreases |s|
  {
    if s != {} {
      var x :| x in s;
      SumTakes(s, f, x);
      SumNotNegative(s - {x}, f);
    }
  }

  /** bo(c) = types / (types + count) */
  ghost function BackoffOf(counts: map<Gram, int>, c: Gram): real {
    Quotient(|Among(counts.Keys, c)| as real, |Among(counts.Keys, c)| as real + Total(counts, counts.Keys, c))
  }

  function Quotient(x: real, y: real): real {
    if y == 0.0 then 0.0 else Div(x, y)
  }

  ghost predicate IsBackoff(counts: map<Gram, int>, bo: map<Gram, real>) {
    && (forall c :: c in bo <==> Among(counts.Keys, c) != {})
    && forall c :: c in bo ==> bo[c] == BackoffOf(counts, c)
  }

  method WittenBellBos(counts: map<Gram, int>) returns (bo: map<Gram, real>)
    requires forall k :: k in counts ==> |k| > 0 && counts[k] >= 0
    ensures IsBackoff(counts, bo)
    ensures forall c :: c in bo ==> IsWittenBell(counts, bo[c], set k | k in counts && |k| > 0 && Context(k) == c)
  {
    bo := BackoffsOf(counts);
    hide IsBackoff, IsWittenBell;
    forall c | c in bo ensures IsWittenBell(counts, bo[c], set k | k in counts && |k| > 0 && Context(k) == c) {
      WittenBellExactly(counts, bo, c);
    }
  }

  /** bo times (types + count) is types, for the grams after a context. */
  ghost predicate IsWittenBell(counts: map<Gram, int>, bo: real, after: set<Gram>) {
    Mul(bo, |after| as real + SumOver(after, CountOf(counts))) == |after| as real && after != {}
  }

  lemma WittenBellExactly(counts: map<Gram, int>, bo: map<Gram, real>, c: Gram)
    requires (forall k :: k in counts ==> |k| > 0 && counts[k] >= 0) && IsBackoff(counts, bo) && c in bo
    ensures IsWittenBell(counts, bo[c], set k | k in counts && |k| > 0 && Context(k) == c)
  {
    var after := set k | k in counts && |k| > 0 && Context(k) == c;
    assert Among(counts.Keys, c) == after;
    TotalPositive(counts, c);
    DivMul(|after| as real, |after| as real + Total(counts, counts.Keys, c));
    hide Div, Mul;
  }

  method BackoffsOf(counts: map<Gram, int>) returns (bo: map<Gram, real>)
    requires forall k :: k in counts ==> |k| > 0 && counts[k] >= 0
    ensures IsBackoff(counts, bo)
  {
    hide Among, Total, Quotient;
    var types, sums := SumCounts(counts);
    bo := map[];
    var todo := types.Keys;
    while todo != {}
      invariant todo <= types.Keys && bo.Keys == types.Keys - todo
      invariant forall c :: c in bo ==> bo[c] == BackoffOf(counts, c)
    {
      var k :| k in todo;
      TotalPositive(counts, k);
      bo := bo[k := Quotient(types[k] as real, types[k] as real + sums[k])];
      todo := todo - {k};
    }
  }

  /** The program divides by types + count, which is not 0. */
  lemma TotalPositive(counts: map<Gram, int>, c: Gram)
    requires forall k :: k in counts ==> counts[k] >= 0
    requires Among(counts.Keys, c) != {}
    ensures |Among(counts.Keys, c)| as real + Total(counts, counts.Keys, c) > 0.0
  {
    SumNotNegative(Among(counts.Keys, c), CountOf(counts));
  }

  /** p(k) = count / sum of the counts in its context, or 0 */
  ghost function ShareOf(counts: map<Gram, int>, k: Gram): real
    requires k in counts && |k| > 0
  {
    Quotient(counts[k] as real, Total(counts, counts.Keys, Context(k)))
  }

  ghost predicate IsShare(counts: map<Gram, int>, p: map<Gram, real>)
    requires forall k :: k in counts ==> |k| > 0
  {
    p.Keys == counts.Keys && forall k :: k in p ==> p[k] == ShareOf(counts, k)
  }

  method ToProbs(counts: map<Gram, int>) returns (p: map<Gram, real>)
    requires forall k :: k in counts ==> |k| > 0
    ensures IsShare(counts, p)
    ensures forall k :: k in p ==> IsPart(counts, p[k], counts[k] as real, set g | g in counts && |g| > 0 && Context(g) == Context(k))
  {
    p := SharesOf(counts);
    hide IsPart;
    forall k | k in p ensures IsPart(counts, p[k], counts[k] as real, set g | g in counts && |g| > 0 && Context(g) == Context(k)) {
      SharesExactly(counts, p, k);
    }
  }

  /** share times the sum of the counts after the context is the count, or there is no count to share. */
  ghost predicate IsPart(counts: map<Gram, int>, share: real, count: real, after: set<Gram>) {
    if SumOver(after, CountOf(counts)) == 0.0 then share == 0.0 else Mul(share, SumOver(after, CountOf(counts))) == count
  }

  lemma SharesExactly(counts: map<Gram, int>, p: map<Gram, real>, k: Gram)
    requires (forall k :: k in counts ==> |k| > 0) && IsShare(counts, p) && k in p
    ensures k in counts && IsPart(counts, p[k], counts[k] as real, set g | g in counts && |g| > 0 && Context(g) == Context(k))
  {
    var after := set g | g in counts && |g| > 0 && Context(g) == Context(k);
    assert Among(counts.Keys, Context(k)) == after;
    var total := Total(counts, counts.Keys, Context(k));
    if total != 0.0 { DivMul(counts[k] as real, total); }
    hide Div, Mul;
  }

  method SharesOf(counts: map<Gram, int>) returns (p: map<Gram, real>)
    requires forall k :: k in counts ==> |k| > 0
    ensures IsShare(counts, p)
  {
    hide Among, Total, Quotient;
    var types, sums := SumCounts(counts);
    p := map[];
    var todo := counts.Keys;
    while todo != {}
      invariant todo <= counts.Keys && p.Keys == counts.Keys - todo
      invariant forall k :: k in p ==> p[k] == ShareOf(counts, k)
    {
      var k :| k in todo;
      IsAmong(counts.Keys, k);
      p := p[k := Quotient(counts[k] as real, sums[Context(k)])];
      todo := todo - {k};
    }
  }

  lemma IsAmong(keys: set<Gram>, k: Gram)
    requires k in keys && |k| > 0
    ensures k in Among(keys, Context(k)) && Among(keys, Context(k)) != {}
  {
    assert k in Among(keys, Context(k));
  }

  /** Shares sum to 1; where there is nothing to share, all is left to the back-off. */
  lemma SharesAreNormal(counts: map<Gram, int>, p: map<Gram, real>, bo: map<Gram, real>, c: Gram)
    requires (forall k :: k in counts ==> |k| > 0 && counts[k] >= 0) && IsShare(counts, p) && IsBackoff(counts, bo) && c in bo
    ensures bo[c] == 1.0 || SumOver(After(p, c), Look(p)) == 1.0
  {
    hide SumOver, IsShare;
    assert p.Keys == counts.Keys by { SameKeys(counts, p); }
    assert After(p, c) == Among(counts.Keys, c);
    if Total(counts, counts.Keys, c) != 0.0 {
      SharesSum(counts, p, c);
    } else {
      TotalPositive(counts, c);
      Whole(|Among(counts.Keys, c)| as real);
    }
  }

  lemma SameKeys(counts: map<Gram, int>, p: map<Gram, real>)
    requires (forall k :: k in counts ==> |k| > 0) && IsShare(counts, p)
    ensures p.Keys == counts.Keys
  {}

  lemma Whole(x: real)
    requires x != 0.0
    ensures Quotient(x, x) == 1.0
  {
    hide Div, Mul;
    MulUnit(x);
    DivUnique(x, x, 1.0);
  }

  lemma SharesSum(counts: map<Gram, int>, p: map<Gram, real>, c: Gram)
    requires (forall k :: k in counts ==> |k| > 0) && IsShare(counts, p) && Total(counts, counts.Keys, c) != 0.0
    ensures SumOver(Among(counts.Keys, c), Look(p)) == 1.0
  {
    var some, s := Among(counts.Keys, c), Total(counts, counts.Keys, c);
    var zero: Gram -> real := (k: Gram) => 0.0;
    hide Mul, Quotient, SumOver;
    forall k | k in some ensures Look(p)(k) == Mul(Quotient(1.0, s), CountOf(counts)(k)) + Mul(0.0, zero(k)) {
      ShareIsProduct(counts[k] as real, s);
      MulZero(zero(k));
    }
    SumMixes(some, CountOf(counts), zero, Look(p), Quotient(1.0, s), 0.0);
    MulZero(SumOver(some, zero));
    ShareIsProduct(s, s);
    Whole(s);
  }

  lemma ShareIsProduct(x: real, s: real)
    requires s != 0.0
    ensures Quotient(x, s) == Mul(Quotient(1.0, s), x)
  {
    hide Div, Mul;
    MulUnit(x);
    MulDiv(x, 1.0, s);
    MulCommutes(x, Div(1.0, s));
  }

  // ----- the model -----

  ghost predicate CountsShaped(counts: seq<map<Gram, int>>) {
    |counts| > 0 && forall o, k :: 0 <= o < |counts| && k in counts[o] ==> |k| == o + 1 && counts[o][k] >= 0
  }

  /** The grams of order h + 1, less their first word, are among those of order h. */
  ghost predicate Suffixes(counts: seq<map<Gram, int>>, h: nat)
    requires 0 < h < |counts|
  {
    forall k :: k in counts[h] && |k| > 0 ==> k[1..] in counts[h - 1]
  }

  ghost predicate AllSuffixes(counts: seq<map<Gram, int>>) {
    forall h :: 0 < h < |counts| ==> Suffixes(counts, h)
  }

  ghost function MixOf(lower: map<Gram, real>, bo: map<Gram, real>, raw: map<Gram, real>, k: Gram): real
    requires k in raw && |k| > 0 && k[1..] in lower && Context(k) in bo
  {
    Mul(bo[Context(k)], lower[k[1..]]) + Mul(1.0 - bo[Context(k)], raw[k])
  }

  /** Every gram has a shorter one and a context. */
  ghost predicate Founded(p: map<Gram, real>, lower: map<Gram, real>, bo: map<Gram, real>) {
    forall k :: k in p ==> |k| > 0 && k[1..] in lower && Context(k) in bo
  }

  ghost predicate OrderMixed(p: map<Gram, real>, lower: map<Gram, real>, bo: map<Gram, real>, raw: map<Gram, real>) {
    p.Keys == raw.Keys && Founded(raw, lower, bo) && forall k :: k in p ==> p[k] == MixOf(lower, bo, raw, k)
  }

  function Mix(l: real, lower: real, b: real): (r: real)
    ensures r == Mul(b, lower) + Mul(1.0 - b, l)
  {
    b * lower + (1.0 - b) * l
  }

  /** (p - bo * b) / (1 - bo) undoes the mix with any l, if the back-off did not take all. */
  function Unmix(p: real, lower: real, b: real, ghost l: real): (r: real)
    requires b != 1.0
    ensures p == Mul(b, lower) + Mul(1.0 - b, l) ==> r == l
  {
    UnmixIsInverse(p, lower, b, l);
    Div(p - Times(b, lower), 1.0 - b)
  }

  lemma UnmixIsInverse(p: real, lower: real, b: real, l: real)
    requires b != 1.0
    ensures p == Mul(b, lower) + Mul(1.0 - b, l) ==> Div(p - Times(b, lower), 1.0 - b) == l
  {
    hide Div, Mul;
    if p == Mul(b, lower) + Mul(1.0 - b, l) {
      MulCommutes(1.0 - b, l);
      DivUnique(p - Times(b, lower), 1.0 - b, l);
    }
  }

  /** interp, one order: every probability is mixed with that of the shorter gram. */
  method InterpOrder(p: map<Gram, real>, lower: map<Gram, real>, bo: map<Gram, real>) returns (p': map<Gram, real>)
    requires Founded(p, lower, bo)
    ensures p'.Keys == p.Keys && forall k :: k in p' ==> p'[k] == MixOf(lower, bo, p, k)
  {
    hide Mul;
    p' := p;
    var todo := p.Keys;
    while todo != {}
      invariant todo <= p.Keys == p'.Keys
      invariant forall k :: k in p' ==> p'[k] == if k in todo then p[k] else MixOf(lower, bo, p, k)
    {
      var k :| k in todo;
      todo := todo - {k};
      p' := p'[k := Mix(p'[k], lower[k[1..]], bo[Context(k)])];
    }
  }

  ghost predicate Undoable(bo: map<Gram, real>, raw: map<Gram, real>, k: Gram) {
    |k| > 0 && Context(k) in bo && bo[Context(k)] != 1.0 && k in raw && raw[k] > 0.0
  }

  /** uninterp, one order: fails where the back-off is 1, or where nothing positive comes out. */
  method UninterpOrder(p: map<Gram, real>, lower: map<Gram, real>, bo: map<Gram, real>, ghost raw: map<Gram, real>)
    returns (ok: bool, p': map<Gram, real>)
    requires p.Keys == raw.Keys && Founded(p, lower, bo) && forall k :: k in p ==> p[k] == MixOf(lower, bo, raw, k)
    ensures ok <==> forall k :: k in p ==> Undoable(bo, raw, k)
    ensures ok ==> p' == raw
  {
    hide Mul;
    p' := p;
    var todo := p.Keys;
    while todo != {}
      invariant todo <= p.Keys == p'.Keys
      invariant forall k :: k in p' ==> p'[k] == if k in todo then p[k] else raw[k]
      invariant forall k :: k in p && k !in todo ==> Undoable(bo, raw, k)
    {
      var k :| k in todo;
      var b := bo[Context(k)];
      if b == 1.0 {
        assert !Undoable(bo, raw, k);
        return false, p';
      }
      var r := Unmix(p'[k], lower[k[1..]], b, raw[k]);
      if r <= 0.0 {
        assert !Undoable(bo, raw, k);
        return false, p';
      }
      todo := todo - {k};
      p' := p'[k := r];
    }
    ok := true;
  }

  /** The gram of order o that ends at i, if the text has room for it, is counted once more. */
  ghost function OneMore(counts: map<Gram, int>, text: seq<nat>, i: nat, o: nat): map<Gram, int>
    requires i < |text|
  {
    if o > i then counts else
    var key := text[i - o..i + 1];
    counts[key := (if key in counts then counts[key] else 0) + 1]
  }

  lemma NotCounted(counts: seq<map<Gram, int>>, text: seq<nat>, i: nat)
    requires i < |text|
    ensures forall h :: i < h < |counts| ==> OneMore(counts[h], text, i, h) == counts[h]
  {}

  lemma OneMoreKeeps(counts: seq<map<Gram, int>>, text: seq<nat>, i: nat, o: nat)
    requires CountsShaped(counts) && AllSuffixes(counts) && o < |counts| && o <= i < |text|
    requires o > 0 ==> text[i - (o - 1)..i + 1] in counts[o - 1]
    ensures var key := text[i - o..i + 1];
      key in OneMore(counts[o], text, i, o)
      && OneMore(counts[o], text, i, o) == counts[o][key := (if key in counts[o] then counts[o][key] else 0) + 1]
    ensures CountsShaped(counts[o := OneMore(counts[o], text, i, o)]) && AllSuffixes(counts[o := OneMore(counts[o], text, i, o)])
  {
    var key := text[i - o..i + 1];
    var more := counts[o := OneMore(counts[o], text, i, o)];
    assert o > 0 ==> key[1..] == text[i - (o - 1)..i + 1];
    forall h | 0 < h < |more| ensures Suffixes(more, h) {
      assert Suffixes(counts, h);
    }
  }

  /** The contexts that were not counted are entered with count 0. */
  ghost predicate WithZeros(counts: map<Gram, int>, contexts: set<Gram>, ps: map<Gram, int>) {
    ps.Keys == counts.Keys + contexts && forall k :: k in ps ==> ps[k] == if k in counts then counts[k] else 0
  }

  ghost predicate ContextsEntered(counts: seq<map<Gram, int>>, counts': seq<map<Gram, int>>, bow: seq<map<Gram, real>>) {
    && |counts| == |counts'| == |bow| > 0
    && counts'[|counts| - 1] == counts[|counts| - 1]
    && forall h :: 0 <= h < |counts| - 1 ==> WithZeros(counts[h], bow[h].Keys, counts'[h])
  }

  /** What training makes of counts: the counts with their contexts entered, the back-offs and the shares. */
  ghost predicate TrainedFrom(counts: seq<map<Gram, int>>, counts': seq<map<Gram, int>>, bow: seq<map<Gram, real>>, raw: seq<map<Gram, real>>) {
    && ContextsEntered(counts, counts', bow) && CountsShaped(counts') && |raw| == |counts'|
    && (forall h :: 0 <= h < |raw| ==> IsShare(counts'[h], raw[h]))
    && forall h :: 0 <= h < |raw| - 1 ==> IsBackoff(counts'[h + 1], bow[h])
  }

  // ----- counting a text -----

  /** At how many positions from a up to b the gram of order o that ends there is k. */
  ghost function Occurs(text: seq<nat>, o: nat, k: Gram, a: nat, b: nat): nat
    requires b <= |text|
    decreases b
  {
    if b <= a then 0
    else Occurs(text, o, k, a, b - 1) + if o <= b - 1 && text[b - 1 - o..b] == k then 1 else 0
  }

  /** The gram k of o + 1 words ends at w. */
  ghost predicate EndsAt(text: seq<nat>, o: nat, k: Gram, w: nat) {
    o <= w < |text| && text[w - o..w + 1] == k
  }

  /** The places from a up to b at which the gram k of o + 1 words ends in the text. */
  ghost function Places(text: seq<nat>, o: nat, k: Gram, a: nat, b: nat): set<nat>
    requires b <= |text|
  {
    set w: nat | a <= w < b && EndsAt(text, o, k, w)
  }

  lemma OnePlaceMore(text: seq<nat>, o: nat, k: Gram, a: nat, b: nat)
    requires a < b <= |text|
    ensures |Places(text, o, k, a, b)| == |Places(text, o, k, a, b - 1)| + if EndsAt(text, o, k, b - 1) then 1 else 0
  {
    hide EndsAt;
    if EndsAt(text, o, k, b - 1) {
      assert Places(text, o, k, a, b) == Places(text, o, k, a, b - 1) + {b - 1};
    } else {
      assert Places(text, o, k, a, b) == Places(text, o, k, a, b - 1);
    }
  }

  lemma NoPlaces(text: seq<nat>, o: nat, k: Gram, a: nat, b: nat)
    requires b <= |text| && b <= a
    ensures Places(text, o, k, a, b) == {}
  {}

  lemma {:induction false} OccursAtPlaces(text: seq<nat>, o: nat, k: Gram, a: nat, b: nat)
    requires b <= |text|
    ensures Occurs(text, o, k, a, b) == |Places(text, o, k, a, b)|
    decreases b
  {
    hide Places;
    if b <= a {
      NoPlaces(text, o, k, a, b);
    } else {
      OccursAtPlaces(text, o, k, a, b - 1);
      OnePlaceMore(text, o, k, a, b);
    }
  }

  ghost function CountIn(counts: map<Gram, int>, k: Gram): int {
    if k in counts then counts[k] else 0
  }

  /** Every gram of order o was counted as often as it occurs from a up to b. */
  ghost predicate CountedOrder(counts: map<Gram, int>, counts': map<Gram, int>, text: seq<nat>, o: nat, a: nat, b: nat)
    requires b <= |text|
  {
    forall k :: CountIn(counts', k) == CountIn(counts, k) + Occurs(text, o, k, a, b)
      && (k in counts' <==> k in counts || Occurs(text, o, k, a, b) > 0)
  }

  ghost predicate Counted(counts: seq<map<Gram, int>>, counts': seq<map<Gram, int>>, text: seq<nat>, a: nat, b: nat)
    requires b <= |text|
  {
    |counts| == |counts'| && forall o :: 0 <= o < |counts| ==> CountedOrder(counts[o], counts'[o], text, o, a, b)
  }

  lemma CountedNext(counts: seq<map<Gram, int>>, counts': seq<map<Gram, int>>, counts'': seq<map<Gram, int>>, text: seq<nat>, a: nat, b: nat)
    requires a <= b < |text| && Counted(counts, counts', text, a, b) && |counts''| == |counts'|
    requires forall o :: 0 <= o < |counts| ==> counts''[o] == OneMore(counts'[o], text, b, o)
    ensures Counted(counts, counts'', text, a, b + 1)
  {
    hide CountedOrder, OneMore;
    forall o | 0 <= o < |counts| ensures CountedOrder(counts[o], counts''[o], text, o, a, b + 1) {
      CountedNextOrder(counts[o], counts'[o], text, o, a, b);
    }
  }

  lemma CountedNextOrder(counts: map<Gram, int>, counts': map<Gram, int>, text: seq<nat>, o: nat, a: nat, b: nat)
    requires a <= b < |text| && CountedOrder(counts, counts', text, o, a, b)
    ensures CountedOrder(counts, OneMore(counts', text, b, o), text, o, a, b + 1)
  {}

  lemma NothingCounted(counts: seq<map<Gram, int>>, text: seq<nat>, a: nat, b: nat)
    requires b <= a && b <= |text|
    ensures Counted(counts, counts, text, a, b)
  {}

  /** The text with a word in front and one behind, if they are given. */
  function Enclosed(words: seq<nat>, pre: Option<nat>, post: Option<nat>): seq<nat> {
    (if pre.Some? then [pre.value] else []) + words + if post.Some? then [post.value] else []
  }

  class Ngram {
    const order: nat
    var counts: seq<map<Gram, int>>
    var prob: seq<map<Gram, real>>
    var bow: seq<map<Gram, real>>
    const unk: real

    ghost function AsModel(): Model
      reads this
    {
      Model(order, prob, bow, unk)
    }

    ghost predicate Counting()
      reads this
    {
      order > 0 && |counts| == order && CountsShaped(counts) && AllSuffixes(counts)
    }

    constructor (order: nat, unk: real)
      requires order > 0
      ensures this.order == order && this.unk == unk && Counting() && counts == seq(order, _ => map[])
    {
      this.order, this.unk := order, unk;
      counts := seq(order, _ => map[]);
      prob, bow := seq(order, _ => map[]), seq(order, _ => map[]);
    }

    /** count_word: the grams of every order that end at i. */
    method CountWord(text: seq<nat>, i: nat)
      requires Counting() && i < |text|
      modifies this`counts
      ensures Counting()
      ensures forall o :: 0 <= o < order ==> counts[o] == OneMore(old(counts)[o], text, i, o)
    {
      hide CountsShaped, AllSuffixes, OneMore;
      for o := 0 to if order <= i + 1 then order else i + 1
        invariant Counting()
        invariant forall h :: 0 <= h < order ==> counts[h] == if h < o then OneMore(old(counts)[h], text, i, h) else old(counts)[h]
        invariant o > 0 ==> text[i - (o - 1)..i + 1] in counts[o - 1]
      {
        OneMoreKeeps(counts, text, i, o);
        var key := text[i - o..i + 1];
        counts := counts[o := counts[o][key := (if key in counts[o] then counts[o][key] else 0) + 1]];
      }
      NotCounted(old(counts), text, i);
    }

    /** count_text: word by word from i on; the word in front is not counted itself. */
    method CountText(words: seq<nat>, i: nat, pre: Option<nat>, post: Option<nat>)
      requires Counting()
      modifies this`counts
      ensures Counting()
      ensures var text := Enclosed(words, pre, post); Counted(old(counts), counts, text, if pre.Some? then i + 1 else i, |text|)
    {
      hide CountsShaped, AllSuffixes, Counted, OneMore;
      var text, start := words, i;
      if pre.Some? {
        text := [pre.value] + text;
        start := start + 1;
      }
      if post.Some? { text := text + [post.value]; }
      assert text == Enclosed(words, pre, post);
      if start > |text| {
        NothingCounted(counts, text, start, |text|);
        return;
      }
      NothingCounted(counts, text, start, start);
      for w := start to |text|
        invariant Counting() && Counted(old(counts), counts, text, start, w)
      {
        ghost var before := counts;
        CountWord(text, w);
        CountedNext(old(counts), before, counts, text, start, w);
      }
    }

    /** train_lm, Witten-Bell: back-offs from the highest order down, contexts that were not counted entered with count 0;
      * then probabilities; then, if wanted, interpolation from the lowest order up. */
    method TrainLm(interpolate: bool) returns (ghost raw: seq<map<Gram, real>>)
      requires Counting() && exists k :: k in counts[0] && counts[0][k] > 0
      modifies this
      ensures Shaped(AsModel()) && SameGrams(AsModel(), raw) && Normal(AsModel(), raw) && Backed(AsModel())
      ensures interpolate ==> Interpolated(AsModel(), raw)
      ensures !interpolate ==> raw == prob
      ensures prob[0] == raw[0] && TrainedFrom(old(counts), counts, bow, raw)
    {
      hide CountsShaped, AllSuffixes, IsShare, IsBackoff, Shaped, SameGrams, Normal, Backed, Interpolated, ContextsEntered;
      Backoffs();
      AllShares();
      raw := prob;
      Trained(AsModel(), counts);
      TrainedSizes(AsModel(), counts);
      HaveSameGrams(AsModel(), raw);
      if interpolate { Interp(raw); }
    }

    /** The probabilities of all orders. */
    method AllShares()
      requires Counting()
      modifies this`prob
      ensures |prob| == order && forall h :: 0 <= h < order ==> IsShare(counts[h], prob[h])
    {
      hide IsShare, AllSuffixes;
      prob := [];
      for o := 0 to order
        invariant |prob| == o && forall h :: 0 <= h < o ==> IsShare(counts[h], prob[h])
      {
        OrderShaped(counts, o);
        var p := ToProbs(counts[o]);
        prob := prob + [p];
      }
    }

    /** The loop over orders of train_lm. */
    method Backoffs()
      requires Counting()
      modifies this`bow, this`counts
      ensures Counting() && |bow| == order
      ensures forall h :: 0 <= h < order - 1 ==> IsBackoff(counts[h + 1], bow[h])
      ensures bow[order - 1] == map[]
      ensures forall k :: k in old(counts)[0] ==> k in counts[0] && counts[0][k] == old(counts)[0][k]
      ensures ContextsEntered(old(counts), counts, bow)
    {
      hide IsBackoff, CountsShaped, AllSuffixes, ContextsEntered, WithZeros, Lowered;
      bow := seq(order, _ => map[]);
      var o := order - 1;
      LoweringStarts(counts, bow);
      while o > 0
        invariant 0 <= o < order == |counts| == |bow| && Lowered(old(counts), counts, bow, o)
      {
        o := o - 1;
        LoweredShape(old(counts), counts, bow, o + 1);
        var bos := WittenBellBos(counts[o + 1]);
        var ps := AddZeros(counts[o], bos.Keys);
        LowerStep(old(counts), counts, bow, o, bos, ps);
        bow := bow[o := bos];
        counts := counts[o := ps];
      }
      LoweringEnds(old(counts), counts, bow);
    }

    method Interp(ghost raw: seq<map<Gram, real>>)
      requires Shaped(AsModel()) && Backed(AsModel()) && raw == prob && Normal(AsModel(), raw)
      modifies this`prob
      ensures Shaped(AsModel()) && SameGrams(AsModel(), raw) && Normal(AsModel(), raw) && Backed(AsModel()) && Interpolated(AsModel(), raw)
      ensures prob[0] == raw[0]
    {
      hide Shaped, SameGrams, Backed, Interpolated, MixOf, Mul, Normal, OrderMixed, Founded;
      ghost var m := AsModel();
      BackedSizes(m);
      for o := 0 to order - 1
        invariant |prob| == order && (forall h :: 0 <= h < order ==> prob[h].Keys == raw[h].Keys)
        invariant forall h :: o < h < order ==> prob[h] == raw[h]
        invariant prob[0] == raw[0]
        invariant forall h :: 0 < h <= o ==> OrderMixed(prob[h], prob[h - 1], bow[h - 1], raw[h])
      {
        var h := o + 1;
        FoundedOn(prob[h], m.prob[o], prob[o], bow[o]);
        var p := InterpOrder(prob[h], prob[o], bow[o]);
        OrderIsMixed(p, prob[o], bow[o], prob[h]);
        prob := prob[h := p];
      }
      HaveSameGrams(AsModel(), raw);
      Mixed(m, AsModel(), raw);
    }

    /** uninterp, from the highest order down: it succeeds exactly if nowhere the back-off took all and nowhere the share was
      * 0, and then gives back what interp overwrote. */
    method Uninterp(ghost raw: seq<map<Gram, real>>) returns (ok: bool)
      requires Shaped(AsModel()) && SameGrams(AsModel(), raw) && Backed(AsModel()) && Interpolated(AsModel(), raw) && prob[0] == raw[0]
      modifies this`prob
      ensures ok <==> forall h, k :: 0 < h < order && k in raw[h] ==> Undoable(bow[h - 1], raw[h], k)
      ensures ok ==> prob == raw
    {
      hide Shaped, SameGrams, Backed, Interpolated, Founded, MixOf, Undoable, Mul, Normal;
      ghost var m := AsModel();
      SameSizes(m, raw);
      var o := order - 1;
      while o > 0
        invariant 0 <= o < order == |prob| == |raw|
        invariant forall h :: 0 <= h <= o ==> prob[h] == m.prob[h]
        invariant forall h :: o < h < order ==> prob[h] == raw[h]
        invariant forall h, k :: o < h < order && k in raw[h] ==> Undoable(bow[h - 1], raw[h], k)
      {
        var h := o;
        o := o - 1;
        MixesAt(m, raw, h);
        var p;
        ok, p := UninterpOrder(prob[h], prob[o], bow[o], raw[h]);
        if !ok { return; }
        prob := prob[h := p];
      }
      ok := true;
    }
  }

  /** prob and raw have the same grams. */
  ghost predicate SameGrams(m: Model, raw: seq<map<Gram, real>>) {
    |raw| == |m.prob| == m.order && forall h :: 0 <= h < m.order ==> m.prob[h].Keys == raw[h].Keys
  }

  ghost predicate Backed(m: Model) {
    |m.prob| == |m.bow| == m.order && forall h :: 0 < h < m.order ==> Founded(m.prob[h], m.prob[h - 1], m.bow[h - 1])
  }

  ghost predicate PartSuffixes(counts: seq<map<Gram, int>>, h: nat)
    requires 0 < h < |counts|
  {
    forall k :: k in counts[h] && |k| > 0 ==> k[1..] in counts[h - 1] || Among(counts[h].Keys, k[1..]) != {}
  }

  /** Order o is still to pass its new contexts on. */
  ghost predicate SuffixesBut(counts: seq<map<Gram, int>>, o: nat) {
    && (forall h :: 0 < h < |counts| && h != o ==> Suffixes(counts, h))
    && (0 < o < |counts| ==> PartSuffixes(counts, o))
  }

  lemma SuffixesPart(counts: seq<map<Gram, int>>, o: nat)
    requires AllSuffixes(counts)
    ensures SuffixesBut(counts, o)
  {
    if 0 < o < |counts| { assert Suffixes(counts, o); }
  }

  lemma OrderShaped(counts: seq<map<Gram, int>>, h: nat)
    requires CountsShaped(counts) && h < |counts|
    ensures forall k :: k in counts[h] ==> |k| > 0 && counts[h][k] >= 0
  {
    forall k | k in counts[h] ensures |k| > 0 && counts[h][k] >= 0 {
      assert |k| == h + 1;
    }
  }

  /** The orders from o up have their back-offs, and their contexts have been entered. */
  ghost predicate Lowered(counts: seq<map<Gram, int>>, counts': seq<map<Gram, int>>, bow: seq<map<Gram, real>>, o: nat) {
    && o < |counts| == |counts'| == |bow| && CountsShaped(counts') && SuffixesBut(counts', o)
    && bow[|bow| - 1] == map[] && counts'[|counts| - 1] == counts[|counts| - 1]
    && (forall h :: o <= h < |counts| - 1 ==> OrderLowered(counts, counts', bow, h))
    && forall h :: 0 <= h < o ==> counts'[h] == counts[h]
  }

  ghost predicate OrderLowered(counts: seq<map<Gram, int>>, counts': seq<map<Gram, int>>, bow: seq<map<Gram, real>>, h: nat)
    requires h + 1 < |counts| == |counts'| == |bow|
  {
    IsBackoff(counts'[h + 1], bow[h]) && WithZeros(counts[h], bow[h].Keys, counts'[h])
  }

  lemma LoweringStarts(counts: seq<map<Gram, int>>, bow: seq<map<Gram, real>>)
    requires CountsShaped(counts) && AllSuffixes(counts) && |bow| == |counts| && bow[|bow| - 1] == map[]
    ensures Lowered(counts, counts, bow, |counts| - 1)
  {
    SuffixesPart(counts, |counts| - 1);
  }

  lemma LoweredShape(counts: seq<map<Gram, int>>, counts': seq<map<Gram, int>>, bow: seq<map<Gram, real>>, h: nat)
    requires Lowered(counts, counts', bow, h)
    ensures forall k :: k in counts'[h] ==> |k| > 0 && counts'[h][k] >= 0
  {
    OrderShaped(counts', h);
  }

  lemma LowerStep(counts: seq<map<Gram, int>>, counts': seq<map<Gram, int>>, bow: seq<map<Gram, real>>, o: nat, bos: map<Gram, real>, ps: map<Gram, int>)
    requires Lowered(counts, counts', bow, o + 1) && IsBackoff(counts'[o + 1], bos) && WithZeros(counts'[o], bos.Keys, ps)
    ensures Lowered(counts, counts'[o := ps], bow[o := bos], o)
  {
    ContextsAdded(counts', o, bos, ps);
    hide IsBackoff, CountsShaped, SuffixesBut, WithZeros;
    var c, b := counts'[o := ps], bow[o := bos];
    forall h | o <= h < |counts| - 1 ensures OrderLowered(counts, c, b, h) {
      assert h > o ==> OrderLowered(counts, counts', bow, h);
    }
  }

  lemma FirstWithZeros(counts: map<Gram, int>, contexts: set<Gram>, ps: map<Gram, int>)
    requires WithZeros(counts, contexts, ps)
    ensures forall k :: k in counts ==> k in ps && ps[k] == counts[k]
  {}

  lemma LoweringEnds(counts: seq<map<Gram, int>>, counts': seq<map<Gram, int>>, bow: seq<map<Gram, real>>)
    requires Lowered(counts, counts', bow, 0)
    ensures CountsShaped(counts') && AllSuffixes(counts') && ContextsEntered(counts, counts', bow) && bow[|bow| - 1] == map[]
    ensures forall h :: 0 <= h < |bow| - 1 ==> IsBackoff(counts'[h + 1], bow[h])
    ensures forall k :: k in counts[0] ==> k in counts'[0] && counts'[0][k] == counts[0][k]
  {
    SuffixesWhole(counts');
    hide IsBackoff, CountsShaped, AllSuffixes, WithZeros;
    forall h | 0 <= h < |bow| - 1 ensures IsBackoff(counts'[h + 1], bow[h]) && WithZeros(counts[h], bow[h].Keys, counts'[h]) {
      assert OrderLowered(counts, counts', bow, h);
    }
    if |counts| > 1 { FirstWithZeros(counts[0], bow[0].Keys, counts'[0]); }
  }

  lemma SuffixesWhole(counts: seq<map<Gram, int>>)
    requires SuffixesBut(counts, 0)
    ensures AllSuffixes(counts)
  {}

  lemma ContextsAdded(counts: seq<map<Gram, int>>, o: nat, bos: map<Gram, real>, ps: map<Gram, int>)
    requires CountsShaped(counts) && o + 1 < |counts| && SuffixesBut(counts, o + 1) && IsBackoff(counts[o + 1], bos)
    requires ps.Keys == counts[o].Keys + bos.Keys && forall k :: k in ps ==> ps[k] == if k in counts[o] then counts[o][k] else 0
    ensures CountsShaped(counts[o := ps]) && SuffixesBut(counts[o := ps], o)
  {
    hide IsBackoff, CountsShaped, Suffixes, PartSuffixes;
    var counts' := counts[o := ps];
    ContextLengths(counts, o, bos);
    ZerosShaped(counts, o, ps);
    NewSuffixes(counts, o, bos, ps);
    if o > 0 { NewPart(counts, o, bos, ps); }
    forall h | 0 < h < |counts| && h != o ensures Suffixes(counts', h) {
      if h != o + 1 { SuffixesSame(counts, counts', h); }
    }
  }

  lemma SuffixesSame(counts: seq<map<Gram, int>>, counts': seq<map<Gram, int>>, h: nat)
    requires |counts| == |counts'| && 0 < h < |counts| && Suffixes(counts, h) && counts'[h] == counts[h] && counts'[h - 1] == counts[h - 1]
    ensures Suffixes(counts', h)
  {}

  lemma ZerosShaped(counts: seq<map<Gram, int>>, o: nat, ps: map<Gram, int>)
    requires CountsShaped(counts) && o < |counts| && forall k :: k in ps ==> k in counts[o] || |k| == o + 1
    requires forall k :: k in ps ==> ps[k] == if k in counts[o] then counts[o][k] else 0
    ensures CountsShaped(counts[o := ps])
  {
    var more := counts[o := ps];
    forall h, k | 0 <= h < |more| && k in more[h] ensures |k| == h + 1 && more[h][k] >= 0 {
      if h != o || k in counts[o] { assert k in counts[h]; }
    }
  }

  lemma ContextLengths(counts: seq<map<Gram, int>>, o: nat, bos: map<Gram, real>)
    requires CountsShaped(counts) && o + 1 < |counts| && IsBackoff(counts[o + 1], bos)
    ensures forall c :: c in bos ==> |c| == o + 1
  {
    forall c | c in bos ensures |c| == o + 1 {
      var k :| k in Among(counts[o + 1].Keys, c);
    }
  }

  /** Now every gram of the higher order has its shorter gram. */
  lemma NewSuffixes(counts: seq<map<Gram, int>>, o: nat, bos: map<Gram, real>, ps: map<Gram, int>)
    requires CountsShaped(counts) && o + 1 < |counts| && PartSuffixes(counts, o + 1) && IsBackoff(counts[o + 1], bos)
    requires ps.Keys == counts[o].Keys + bos.Keys
    ensures forall k :: k in counts[o + 1] ==> k[1..] in ps
    ensures Suffixes(counts[o := ps], o + 1)
  {
    forall k | k in counts[o + 1] ensures k[1..] in ps {
      assert |k| == o + 2;
    }
  }

  /** A context that was added comes from a gram one shorter that has the shorter context. */
  lemma NewPart(counts: seq<map<Gram, int>>, o: nat, bos: map<Gram, real>, ps: map<Gram, int>)
    requires CountsShaped(counts) && 0 < o && o + 1 < |counts| && Suffixes(counts, o) && IsBackoff(counts[o + 1], bos)
    requires ps.Keys == counts[o].Keys + bos.Keys && forall k :: k in counts[o + 1] ==> k[1..] in ps
    ensures PartSuffixes(counts[o := ps], o)
  {
    hide IsBackoff;
    forall c | c in ps && |c| > 0 ensures c[1..] in counts[o - 1] || Among(ps.Keys, c[1..]) != {} {
      if c in counts[o] {
        assert Suffixes(counts, o);
      } else {
        AddedContext(counts[o + 1], bos, ps, c, o);
      }
    }
    hide Among, Suffixes;
  }

  lemma AddedContext(longer: map<Gram, int>, bos: map<Gram, real>, ps: map<Gram, int>, c: Gram, o: nat)
    requires IsBackoff(longer, bos) && c in bos && 0 < o && forall k :: k in longer ==> |k| == o + 2 && k[1..] in ps
    ensures |c| > 0 && Among(ps.Keys, c[1..]) != {}
  {
    var k :| k in Among(longer.Keys, c);
    assert Context(k[1..]) == c[1..];
    assert k[1..] in Among(ps.Keys, c[1..]);
  }

  lemma Trained(m: Model, counts: seq<map<Gram, int>>)
    requires m.order > 0 && |counts| == m.order == |m.prob| == |m.bow| && CountsShaped(counts) && AllSuffixes(counts)
    requires forall h :: 0 <= h < m.order ==> IsShare(counts[h], m.prob[h])
    requires forall h :: 0 <= h < m.order - 1 ==> IsBackoff(counts[h + 1], m.bow[h])
    requires m.bow[m.order - 1] == map[] && exists k :: k in counts[0] && counts[0][k] > 0
    ensures Shaped(m) && Normal(m, m.prob) && Backed(m)
  {
    TrainedShape(m, counts);
    UnigramsNormal(m, counts);
    forall h: nat, c | 0 < h < m.order && c in m.bow[h - 1]
      ensures m.bow[h - 1][c] == 1.0 || SumOver(After(m.prob[h], c), Look(m.prob[h])) == 1.0
    {
      assert IsBackoff(counts[h], m.bow[h - 1]);
      SharesAreNormal(counts[h], m.prob[h], m.bow[h - 1], c);
    }
  }

  lemma TrainedSizes(m: Model, counts: seq<map<Gram, int>>)
    requires Shaped(m)
    ensures |m.prob| == |m.bow| == m.order
  {}

  lemma TrainedShape(m: Model, counts: seq<map<Gram, int>>)
    requires m.order > 0 && |counts| == m.order == |m.prob| == |m.bow| && CountsShaped(counts) && AllSuffixes(counts)
    requires forall h :: 0 <= h < m.order ==> IsShare(counts[h], m.prob[h])
    requires forall h :: 0 <= h < m.order - 1 ==> IsBackoff(counts[h + 1], m.bow[h])
    requires m.bow[m.order - 1] == map[]
    ensures Shaped(m) && Backed(m)
  {
    forall o, c | 0 <= o < m.order && c in m.bow[o] ensures |c| == o + 1 {
      assert o < m.order - 1 && IsBackoff(counts[o + 1], m.bow[o]);
      var k :| k in Among(counts[o + 1].Keys, c);
    }
    forall h | 0 < h < m.order ensures Founded(m.prob[h], m.prob[h - 1], m.bow[h - 1]) {
      assert Suffixes(counts, h) && IsBackoff(counts[h - 1 + 1], m.bow[h - 1]);
      forall k | k in m.prob[h] ensures Context(k) in m.bow[h - 1] { IsAmong(counts[h].Keys, k); }
    }
  }

  lemma UnigramsNormal(m: Model, counts: seq<map<Gram, int>>)
    requires m.order > 0 && |counts| == m.order == |m.prob| && CountsShaped(counts) && IsShare(counts[0], m.prob[0])
    requires exists k :: k in counts[0] && counts[0][k] > 0
    ensures SumOver(m.prob[0].Keys, Look(m.prob[0])) == 1.0
  {
    var all := Among(counts[0].Keys, []);
    assert all == counts[0].Keys;
    var k :| k in counts[0] && counts[0][k] > 0;
    SumNotNegative(all, CountOf(counts[0]));
    assert k in all && CountOf(counts[0])(k) > 0.0;
    SharesSum(counts[0], m.prob[0], []);
  }

  lemma BackedSizes(m: Model)
    requires Shaped(m) && Backed(m)
    ensures m.order > 0 && |m.prob| == |m.bow| == m.order && forall h :: 0 < h < m.order ==> Founded(m.prob[h], m.prob[h - 1], m.bow[h - 1])
  {}

  lemma FoundedOn(p: map<Gram, real>, lower: map<Gram, real>, lower': map<Gram, real>, bo: map<Gram, real>)
    requires Founded(p, lower, bo) && lower'.Keys == lower.Keys
    ensures Founded(p, lower', bo)
  {}

  lemma OrderIsMixed(p: map<Gram, real>, lower: map<Gram, real>, bo: map<Gram, real>, raw: map<Gram, real>)
    requires Founded(raw, lower, bo) && p.Keys == raw.Keys && forall k :: k in p ==> p[k] == MixOf(lower, bo, raw, k)
    ensures OrderMixed(p, lower, bo, raw)
  {
    hide MixOf;
  }

  lemma HaveSameGrams(m: Model, raw: seq<map<Gram, real>>)
    requires |raw| == |m.prob| == m.order && forall h :: 0 <= h < m.order ==> m.prob[h].Keys == raw[h].Keys
    ensures SameGrams(m, raw)
  {}

  lemma SameSizes(m: Model, raw: seq<map<Gram, real>>)
    requires Shaped(m) && SameGrams(m, raw)
    ensures m.order > 0 && |m.prob| == |m.bow| == |raw| == m.order && forall h :: 0 <= h < m.order ==> m.prob[h].Keys == raw[h].Keys
  {}

  lemma MixesAt(m: Model, raw: seq<map<Gram, real>>, h: nat)
    requires Shaped(m) && SameGrams(m, raw) && Backed(m) && Interpolated(m, raw) && 0 < h < m.order
    ensures Founded(m.prob[h], m.prob[h - 1], m.bow[h - 1])
    ensures forall k :: k in m.prob[h] ==> k in raw[h] && m.prob[h][k] == MixOf(m.prob[h - 1], m.bow[h - 1], raw[h], k)
  {
    hide Mul, Shaped;
    BackedSizes(m);
    SameSizes(m, raw);
    forall k | k in m.prob[h] ensures k in raw[h] && m.prob[h][k] == MixOf(m.prob[h - 1], m.bow[h - 1], raw[h], k) {
      assert IsMix(m, raw, h, k);
    }
  }

  lemma Mixed(m: Model, m': Model, raw: seq<map<Gram, real>>)
    requires Shaped(m) && Backed(m) && m.prob == raw && Normal(m, raw)
    requires m' == m.(prob := m'.prob) && SameGrams(m', raw) && m'.prob[0] == raw[0]
    requires forall h :: 0 < h < m.order ==> OrderMixed(m'.prob[h], m'.prob[h - 1], m.bow[h - 1], raw[h])
    ensures Shaped(m') && Normal(m', raw) && Backed(m') && Interpolated(m', raw)
  {
    forall h | 0 < h < m.order ensures Founded(m'.prob[h], m'.prob[h - 1], m'.bow[h - 1]) {
      assert Founded(m.prob[h], m.prob[h - 1], m.bow[h - 1]);
    }
    forall h: nat, k | 0 < h < m.order && k in m'.prob[h] ensures IsMix(m', raw, h, k) {
      assert OrderMixed(m'.prob[h], m'.prob[h - 1], m.bow[h - 1], raw[h]);
    }
    forall h: nat, c | 0 < h < m.order && c in m'.bow[h - 1]
      ensures m'.bow[h - 1][c] == 1.0 || SumOver(After(m'.prob[h], c), Look(raw[h])) == 1.0
    {
      assert After(m'.prob[h], c) == After(m.prob[h], c);
    }
  }

  method AddZeros(counts: map<Gram, int>, contexts: set<Gram>) returns (ps: map<Gram, int>)
    ensures WithZeros(counts, contexts, ps)
  {
    ps := counts;
    var todo := contexts;
    while todo != {}
      invariant todo <= contexts && ps.Keys == counts.Keys + (contexts - todo)
      invariant forall k :: k in ps ==> ps[k] == if k in counts then counts[k] else 0
    {
      var k :| k in todo;
      todo := todo - {k};
      if k !in ps { ps := ps[k := 0]; }
    }
  }
}
