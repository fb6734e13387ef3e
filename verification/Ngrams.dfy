/** Interpolated back-off n-gram models (sblm/ngram.py), with probabilities where the program keeps their logarithms. */
module Ngrams {
  import opened Weights
  import opened SetSums

  type Gram = seq<nat>

  /** prob[o] has grams of o + 1 words, bow[o] contexts of o + 1 words. */
  datatype Model = Model(order: nat, prob: seq<map<Gram, real>>, bow: seq<map<Gram, real>>, unk: real)

  ghost predicate Shaped(m: Model) {
    && m.order > 0 && |m.prob| == |m.bow| == m.order
    && (forall o, k :: 0 <= o < m.order && k in m.prob[o] ==> |k| == o + 1)
    && (forall o, c :: 0 <= o < m.order && c in m.bow[o] ==> |c| == o + 1)
  }

  function Context(k: Gram): Gram
    requires |k| > 0
  {
    k[..|k| - 1]
  }

  ghost function Backoff(m: Model, o: nat, c: Gram): real
    requires o < |m.bow|
  {
    if c in m.bow[o] then m.bow[o][c] else 1.0
  }

  /** The probability of word w after the o words c: of the longest gram there is, and the back-offs passed on the way. */
  ghost function Score(m: Model, o: nat, c: Gram, w: nat): real
    requires Shaped(m) && o < m.order && |c| == o
    decreases o
  {
    if c + [w] in m.prob[o] then m.prob[o][c + [w]]
    else if o == 0 then m.unk
    else Mul(Backoff(m, o - 1, c), Score(m, o - 1, c[1..], w))
  }

  /** The probability of the word at i after the o words before it. */
  ghost function ScoreAt(m: Model, text: seq<nat>, i: nat, o: nat): real
    requires Shaped(m) && o <= i < |text| && o < m.order
  {
    Score(m, o, text[i - o..i], text[i])
  }

  /** The back-offs of the contexts of the word at i, from that of `from` words down to that of more than `to`. */
  ghost function Passed(m: Model, text: seq<nat>, i: nat, from: nat, to: nat): seq<real>
    requires to <= from <= i < |text| && from <= |m.bow|
  {
    seq(from - to, (j: nat) requires j < from - to => Backoff(m, from - j - 1, text[i - (from - j)..i]))
  }

  /** The gram that ends at i and has `at` words before it is the longest there is, or none is there; p is its probability, or
    * that of unknown words. */
  ghost predicate IsLongest(m: Model, text: seq<nat>, i: nat, from: nat, at: nat, p: real)
    requires at <= from <= i < |text| && from < |m.prob|
  {
    && (forall h: nat :: at < h <= from ==> text[i - h..i + 1] !in m.prob[h])
    && if text[i - at..i + 1] in m.prob[at] then p == m.prob[at][text[i - at..i + 1]] else at == 0 && p == m.unk
  }

  /** The probability of the longest gram there is, and apart from it the product of the back-offs of the longer contexts. */
  method ScoreWord(m: Model, text: seq<nat>, i: nat) returns (p: real, bo: real, ghost at: nat)
    requires Shaped(m) && i < |text|
    ensures var o: nat := if m.order - 1 <= i then m.order - 1 else i;
      at <= o < |m.prob| == |m.bow| && IsLongest(m, text, i, o, at, p) && bo == Product(Passed(m, text, i, o, at)) && Mul(bo, p) == ScoreAt(m, text, i, o)
  {
    hide *;
    ShapedOrder(m);
    bo := 1.0;
    var maxOrder := if m.order - 1 <= i then m.order - 1 else i;
    ghost var goal := ScoreAt(m, text, i, maxOrder);
    var o := maxOrder;
    MulUnit(goal);
    NonePassed(m, text, i, maxOrder);
    while true
      invariant 0 <= o <= maxOrder && Mul(bo, ScoreAt(m, text, i, o)) == goal
      invariant bo == Product(Passed(m, text, i, maxOrder, o)) && forall h: nat :: o < h <= maxOrder ==> text[i - h..i + 1] !in m.prob[h]
      decreases o
    {
      var l := i - o;
      var phrase := text[l..i + 1];
      ScoreTurn(m, text, i, o, bo);
      if phrase in m.prob[o] {
        FoundLongest(m, text, i, maxOrder, o);
        return m.prob[o][phrase], bo, o;
      } else if o > 0 {
        var c := text[l..i];
        PassOne(m, text, i, maxOrder, o);
        bo := Times(bo, if c in m.bow[o - 1] then m.bow[o - 1][c] else 1.0);
        o := o - 1;
      } else {
        FoundLongest(m, text, i, maxOrder, o);
        return m.unk, bo, o;
      }
    }
  }

  lemma NonePassed(m: Model, text: seq<nat>, i: nat, from: nat)
    requires from <= i < |text| && from <= |m.bow|
    ensures Product(Passed(m, text, i, from, from)) == 1.0
  {
    assert Passed(m, text, i, from, from) == [];
  }

  lemma PassOne(m: Model, text: seq<nat>, i: nat, from: nat, o: nat)
    requires 0 < o <= from <= i < |text| && from <= |m.bow|
    ensures var c := text[i - o..i];
      Product(Passed(m, text, i, from, o - 1)) == Times(Product(Passed(m, text, i, from, o)), if c in m.bow[o - 1] then m.bow[o - 1][c] else 1.0)
  {
    var b := Backoff(m, o - 1, text[i - o..i]);
    assert Passed(m, text, i, from, o - 1) == Passed(m, text, i, from, o) + [b];
    hide Passed, Backoff, Product, Mul;
    ProductConcat(Passed(m, text, i, from, o), [b]);
    ProductOfOne(b);
    assert b == Backoff(m, o - 1, text[i - o..i]);
  }

  lemma FoundLongest(m: Model, text: seq<nat>, i: nat, from: nat, at: nat)
    requires at <= from <= i < |text| && from < |m.prob| && forall h: nat :: at < h <= from ==> text[i - h..i + 1] !in m.prob[h]
    ensures var gram := text[i - at..i + 1];
      && (gram in m.prob[at] ==> IsLongest(m, text, i, from, at, m.prob[at][gram]))
      && (gram !in m.prob[at] && at == 0 ==> IsLongest(m, text, i, from, at, m.unk))
  {}

  /** One turn of the loop: the phrase is found, or nothing is, or the back-off is passed. */
  lemma ScoreTurn(m: Model, text: seq<nat>, i: nat, o: nat, bo: real)
    requires Shaped(m) && o <= i < |text| && o < m.order == |m.prob| == |m.bow|
    ensures text[i - o..i + 1] in m.prob[o] ==> ScoreAt(m, text, i, o) == m.prob[o][text[i - o..i + 1]]
    ensures text[i - o..i + 1] !in m.prob[o] && o == 0 ==> ScoreAt(m, text, i, o) == m.unk
    ensures text[i - o..i + 1] !in m.prob[o] && o > 0 ==> (var c := text[i - o..i];
      Mul(bo, ScoreAt(m, text, i, o)) == Mul(Times(bo, if c in m.bow[o - 1] then m.bow[o - 1][c] else 1.0), ScoreAt(m, text, i, o - 1)))
  {
    hide Mul, Shaped, Score, Times;
    TextParts(text, i, o);
    ScoreStep(m, o, text[i - o..i], text[i], bo);
  }

  lemma TextParts(text: seq<nat>, i: nat, o: nat)
    requires o <= i < |text|
    ensures text[i - o..i + 1] == text[i - o..i] + [text[i]]
    ensures o > 0 ==> text[i - o..i][1..] == text[i - (o - 1)..i]
  {}

  lemma ScoreStep(m: Model, o: nat, c: Gram, w: nat, bo: real)
    requires Shaped(m) && o < m.order && |c| == o
    ensures c + [w] in m.prob[o] ==> Score(m, o, c, w) == m.prob[o][c + [w]]
    ensures c + [w] !in m.prob[o] && o == 0 ==> Score(m, o, c, w) == m.unk
    ensures c + [w] !in m.prob[o] && o > 0 ==>
      Mul(bo, Score(m, o, c, w)) == Mul(Mul(bo, if c in m.bow[o - 1] then m.bow[o - 1][c] else 1.0), Score(m, o - 1, c[1..], w))
  {
    hide Mul;
    if o > 0 { MulAssoc(bo, Backoff(m, o - 1, c), Score(m, o - 1, c[1..], w)); }
  }

  lemma ShapedOrder(m: Model)
    requires Shaped(m)
    ensures m.order > 0 && |m.prob| == |m.bow| == m.order
  {}

  // ----- what training makes of the counts -----

  ghost function Look(p: map<Gram, real>): Gram -> real {
    k => if k in p then p[k] else 0.0
  }

  ghost function After(p: map<Gram, real>, c: Gram): set<Gram> {
    set k | k in p && |k| > 0 && Context(k) == c
  }

  /** Every gram is its context's back-off of the shorter gram and the rest of its own share, raw. */
  ghost predicate Interpolated(m: Model, raw: seq<map<Gram, real>>)
    requires Shaped(m)
  {
    && |raw| == m.order
    && forall h: nat, k :: 0 < h < m.order && k in m.prob[h] ==> IsMix(m, raw, h, k)
  }

  ghost predicate IsMix(m: Model, raw: seq<map<Gram, real>>, h: nat, k: Gram)
    requires Shaped(m) && |raw| == m.order && 0 < h < m.order && k in m.prob[h]
  {
    && k[1..] in m.prob[h - 1] && Context(k) in m.bow[h - 1] && k in raw[h]
    && var b := m.bow[h - 1][Context(k)];
       m.prob[h][k] == Mul(b, m.prob[h - 1][k[1..]]) + Mul(1.0 - b, raw[h][k])
  }

  /** The shares after a context sum to 1, unless all is left to the back-off. */
  ghost predicate Normal(m: Model, raw: seq<map<Gram, real>>)
    requires Shaped(m) && |raw| == m.order
  {
    && SumOver(m.prob[0].Keys, Look(m.prob[0])) == 1.0
    && forall h: nat, c :: 0 < h < m.order && c in m.bow[h - 1] ==>
         m.bow[h - 1][c] == 1.0 || SumOver(After(m.prob[h], c), Look(raw[h])) == 1.0
  }

  ghost function Vocabulary(m: Model): set<nat>
    requires Shaped(m)
  {
    set k | k in m.prob[0] :: k[0]
  }

  ghost function Scores(m: Model, o: nat, c: Gram): nat -> real
    requires Shaped(m) && o < m.order && |c| == o
  {
    (w: nat) => Score(m, o, c, w)
  }

  lemma {:induction false} LastIsWord(m: Model, raw: seq<map<Gram, real>>, o: nat, k: Gram)
    requires Shaped(m) && Interpolated(m, raw) && o < m.order && k in m.prob[o]
    ensures |k| == o + 1 && k[o] in Vocabulary(m)
    decreases o
  {
    if o > 0 {
      assert IsMix(m, raw, o, k);
      LastIsWord(m, raw, o - 1, k[1..]);
    }
  }

  lemma Unigrams(m: Model)
    requires Shaped(m)
    ensures forall w :: w in Vocabulary(m) ==> [w] in m.prob[0]
    ensures SumOver(Vocabulary(m), Scores(m, 0, [])) == SumOver(m.prob[0].Keys, Look(m.prob[0]))
  {
    forall k | k in m.prob[0] ensures k == [k[0]] {}
    forall w | w in Vocabulary(m) ensures [w] in m.prob[0] && [] + [w] == [w] {}
    forall k | k in m.prob[0].Keys ensures exists w :: w in Vocabulary(m) && [w] == k {
      assert k[0] in Vocabulary(m) && [k[0]] == k;
    }
    SumRenamed(Vocabulary(m), m.prob[0].Keys, (w: nat) => [w], Scores(m, 0, []), Look(m.prob[0]));
  }

  /** What the words seen after c have of their own. */
  ghost function Own(m: Model, raw: seq<map<Gram, real>>, o: nat, c: Gram): nat -> real
    requires Shaped(m) && |raw| == m.order && 0 < o < m.order
  {
    (w: nat) => if c + [w] in m.prob[o] then Look(raw[o])(c + [w]) else 0.0
  }

  lemma OwnSums(m: Model, raw: seq<map<Gram, real>>, o: nat, c: Gram)
    requires Shaped(m) && Interpolated(m, raw) && 0 < o < m.order && |c| == o
    ensures SumOver(Vocabulary(m), Own(m, raw, o, c)) == SumOver(After(m.prob[o], c), Look(raw[o]))
  {
    hide IsMix, SumOver, Mul;
    var seen := set w | w in Vocabulary(m) && c + [w] in m.prob[o];
    SumOfPart(Vocabulary(m), seen, Own(m, raw, o, c));
    forall w | w in seen ensures c + [w] in After(m.prob[o], c) {
      assert Context(c + [w]) == c;
    }
    forall w, v | w in seen && v in seen && c + [w] == c + [v] ensures w == v {
      assert (c + [w])[o] == w && (c + [v])[o] == v;
    }
    forall k | k in After(m.prob[o], c) ensures exists w :: w in seen && c + [w] == k {
      LastIsWord(m, raw, o, k);
      assert c + [k[o]] == k;
    }
    SumRenamed(seen, After(m.prob[o], c), (w: nat) => c + [w], Own(m, raw, o, c), Look(raw[o]));
  }

  /** After any context, seen or not, the words' probabilities sum to 1. */
  lemma {:induction false} ScoresSumToOne(m: Model, raw: seq<map<Gram, real>>, o: nat, c: Gram)
    requires Shaped(m) && Interpolated(m, raw) && Normal(m, raw) && o < m.order && |c| == o
    ensures SumOver(Vocabulary(m), Scores(m, o, c)) == 1.0
    decreases o
  {
    hide Mul, Shaped, Interpolated, Score, SumOver, IsMix, Own, Scores, Vocabulary;
    ShapedOrder(m);
    if o == 0 {
      assert c == [];
      Unigrams(m);
    } else {
      ScoresSumToOne(m, raw, o - 1, c[1..]);
      SumsMix(m, raw, o, c);
      OwnShare(m, raw, o, c);
      MulUnit(Backoff(m, o - 1, c));
    }
  }

  lemma SumsMix(m: Model, raw: seq<map<Gram, real>>, o: nat, c: Gram)
    requires Shaped(m) && Interpolated(m, raw) && 0 < o < m.order && |c| == o
    ensures SumOver(Vocabulary(m), Scores(m, o, c))
      == Mul(Backoff(m, o - 1, c), SumOver(Vocabulary(m), Scores(m, o - 1, c[1..])))
         + Mul(1.0 - Backoff(m, o - 1, c), SumOver(Vocabulary(m), Own(m, raw, o, c)))
  {
    hide Mul, Shaped, Score, SumOver, IsMix, Own, Vocabulary, Backoff;
    ShapedOrder(m);
    var b := Backoff(m, o - 1, c);
    forall w | w in Vocabulary(m)
      ensures Scores(m, o, c)(w) == Mul(b, Scores(m, o - 1, c[1..])(w)) + Mul(1.0 - b, Own(m, raw, o, c)(w))
    {
      ScoreIsMix(m, raw, o, c, w);
    }
    SumMixes(Vocabulary(m), Scores(m, o - 1, c[1..]), Own(m, raw, o, c), Scores(m, o, c), b, 1.0 - b);
  }

  /** The words seen after c share what the back-off leaves. */
  lemma OwnShare(m: Model, raw: seq<map<Gram, real>>, o: nat, c: Gram)
    requires Shaped(m) && Interpolated(m, raw) && Normal(m, raw) && 0 < o < m.order && |c| == o
    ensures var b := Backoff(m, o - 1, c); Mul(1.0 - b, SumOver(Vocabulary(m), Own(m, raw, o, c))) == 1.0 - b
  {
    hide Mul, Score, SumOver, Own, Vocabulary, IsMix;
    var b := Backoff(m, o - 1, c);
    OwnSums(m, raw, o, c);
    MulUnit(1.0 - b);
    MulZero(SumOver(Vocabulary(m), Own(m, raw, o, c)));
  }

  lemma ScoreIsMix(m: Model, raw: seq<map<Gram, real>>, o: nat, c: Gram, w: nat)
    requires Shaped(m) && Interpolated(m, raw) && 0 < o < m.order && |c| == o
    ensures var b := Backoff(m, o - 1, c);
      Score(m, o, c, w) == Mul(b, Score(m, o - 1, c[1..], w)) + Mul(1.0 - b, Own(m, raw, o, c)(w))
  {
    hide Mul, Shaped, Score, IsMix;
    ShapedOrder(m);
    MulZero(1.0 - Backoff(m, o - 1, c));
    if c + [w] in m.prob[o] {
      SeenIsMix(m, raw, o, c, w);
      assert Look(raw[o])(c + [w]) == raw[o][c + [w]];
      assert Own(m, raw, o, c)(w) == Look(raw[o])(c + [w]);
    } else {
      UnseenBacksOff(m, o, c, w);
      assert Own(m, raw, o, c)(w) == 0.0;
    }
  }

  lemma UnseenBacksOff(m: Model, o: nat, c: Gram, w: nat)
    requires Shaped(m) && 0 < o < m.order && |c| == o && c + [w] !in m.prob[o]
    ensures Score(m, o, c, w) == Mul(Backoff(m, o - 1, c), Score(m, o - 1, c[1..], w))
  {
    hide Mul;
  }

  lemma SeenIsMix(m: Model, raw: seq<map<Gram, real>>, o: nat, c: Gram, w: nat)
    requires Shaped(m) && Interpolated(m, raw) && 0 < o < m.order && |c| == o && c + [w] in m.prob[o]
    ensures c + [w] in raw[o]
    ensures var b := Backoff(m, o - 1, c); Score(m, o, c, w) == Mul(b, Score(m, o - 1, c[1..], w)) + Mul(1.0 - b, raw[o][c + [w]])
  {
    hide Mul, Shaped, Score;
    ShapedOrder(m);
    var k := c + [w];
    assert IsMix(m, raw, o, k);
    assert Context(k) == c && k[1..] == c[1..] + [w];
    ScoreStep(m, o, c, w, 1.0);
    ScoreStep(m, o - 1, c[1..], w, 1.0);
  }
}
