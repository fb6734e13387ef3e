/** When uninterp gives back what interp overwrote (sblm/ngram.py): exactly if no context had to be entered with count 0,
  * unigrams aside, as when texts are counted word by word from their starts. */
module NgramUndoing {
  import opened Weights
  import opened SetSums
  import opened Ngrams
  import opened NgramTraining
  import opened Options

  /** Every gram of two words and more was counted, and so was the context of every gram of three and more. */
  ghost predicate Complete(counts: seq<map<Gram, int>>) {
    forall h: nat, k :: 0 < h < |counts| && k in counts[h] ==> CompleteAt(counts, h, k)
  }

  ghost predicate CompleteAt(counts: seq<map<Gram, int>>, h: nat, k: Gram)
    requires 0 < h < |counts| && k in counts[h]
  {
    counts[h][k] > 0 && (h > 1 && |k| > 0 ==> Context(k) in counts[h - 1])
  }

  ghost predicate AllPositive(counts: seq<map<Gram, int>>) {
    forall h, k :: 0 < h < |counts| && k in counts[h] ==> counts[h][k] > 0
  }

  /** Nowhere does the back-off take all, and nowhere is the share 0. */
  ghost predicate AllUndoable(bow: seq<map<Gram, real>>, raw: seq<map<Gram, real>>)
    requires |bow| == |raw|
  {
    forall h, k :: 0 < h < |raw| && k in raw[h] ==> Undoable(bow[h - 1], raw[h], k)
  }

  // ----- one gram -----

  /** The back-off takes all exactly where the context's total is 0, the share is 0 exactly where the count is. */
  lemma UndoableExactly(counts: map<Gram, int>, bo: map<Gram, real>, raw: map<Gram, real>, k: Gram)
    requires forall k :: k in counts ==> |k| > 0 && counts[k] >= 0
    requires IsBackoff(counts, bo) && IsShare(counts, raw) && k in counts
    ensures Undoable(bo, raw, k) <==> counts[k] > 0
  {
    hide Among, Total, Quotient, SumOver;
    IsAmong(counts.Keys, k);
    var c := Context(k);
    var types, total := |Among(counts.Keys, c)| as real, Total(counts, counts.Keys, c);
    TotalPositive(counts, c);
    TotalHas(counts, k);
    if total == 0.0 {
      Whole(types);
    } else {
      PartOf(types, total);
      PartOf(counts[k] as real, total);
      NotWhole(types, total);
    }
  }

  lemma TotalHas(counts: map<Gram, int>, k: Gram)
    requires forall k :: k in counts ==> |k| > 0 && counts[k] >= 0
    requires k in counts
    ensures Total(counts, counts.Keys, Context(k)) >= 0.0
    ensures Total(counts, counts.Keys, Context(k)) == 0.0 ==> counts[k] == 0
  {
    IsAmong(counts.Keys, k);
    SumNotNegative(Among(counts.Keys, Context(k)), CountOf(counts));
    assert CountOf(counts)(k) == counts[k] as real;
  }

  lemma PartOf(x: real, y: real)
    requires x >= 0.0 && y > 0.0
    ensures Quotient(x, y) >= 0.0 && (Quotient(x, y) > 0.0 <==> x > 0.0)
  {
    hide Div;
    Sign(Div(x, y), y);
  }

  lemma Sign(q: real, y: real)
    requires y > 0.0
    ensures (Mul(q, y) > 0.0 <==> q > 0.0) && (Mul(q, y) >= 0.0 <==> q >= 0.0)
  {}

  lemma NotWhole(x: real, y: real)
    requires x >= 0.0 && y > 0.0
    ensures Quotient(x, x + y) != 1.0
  {
    hide Div;
    MulUnit(x + y);
  }

  // ----- all of them -----

  /** After training, uninterp can undo everything exactly if what was counted was complete. */
  lemma UndoableIfComplete(counts: seq<map<Gram, int>>, counts': seq<map<Gram, int>>, bow: seq<map<Gram, real>>, raw: seq<map<Gram, real>>)
    requires TrainedFrom(counts, counts', bow, raw) && CountsShaped(counts)
    ensures AllUndoable(bow, raw) <==> Complete(counts)
  {
    hide Undoable, IsBackoff, IsShare, ContextsEntered, CountsShaped, Complete;
    SameLengths(counts, counts', bow, raw);
    forall h, k | 0 < h < |raw| && k in raw[h] ensures k in counts'[h] && (Undoable(bow[h - 1], raw[h], k) <==> counts'[h][k] > 0) {
      OrderShaped(counts', h);
      SameKeys(counts'[h], raw[h]);
      assert IsBackoff(counts'[h - 1 + 1], bow[h - 1]);
      UndoableExactly(counts'[h], bow[h - 1], raw[h], k);
    }
    forall h, k | 0 < h < |raw| && k in counts'[h] ensures k in raw[h] {
      OrderShaped(counts', h);
      SameKeys(counts'[h], raw[h]);
    }
    assert AllUndoable(bow, raw) <==> AllPositive(counts');
    if Complete(counts) { CompleteStays(counts, counts', bow); }
    if AllPositive(counts') { PositiveIsComplete(counts, counts', bow); }
  }

  lemma SameLengths(counts: seq<map<Gram, int>>, counts': seq<map<Gram, int>>, bow: seq<map<Gram, real>>, raw: seq<map<Gram, real>>)
    requires TrainedFrom(counts, counts', bow, raw)
    ensures |counts| == |counts'| == |bow| == |raw| > 0
    ensures forall h :: 0 <= h < |bow| - 1 ==> IsBackoff(counts'[h + 1], bow[h])
  {
    hide IsBackoff, IsShare, CountsShaped;
  }

  /** If it is complete, no context is added but to the unigrams. */
  lemma CompleteStays(counts: seq<map<Gram, int>>, counts': seq<map<Gram, int>>, bow: seq<map<Gram, real>>)
    requires ContextsEntered(counts, counts', bow) && Complete(counts) && CountsShaped(counts) && CountsShaped(counts')
    requires forall h :: 0 <= h < |bow| - 1 ==> IsBackoff(counts'[h + 1], bow[h])
    ensures AllPositive(counts')
  {
    hide IsBackoff, CountsShaped, Complete;
    var h := |counts| - 1;
    while h > 0
      invariant 0 <= h < |counts|
      invariant h > 0 ==> counts'[h] == counts[h]
      invariant forall g :: 0 < h <= g < |counts| ==> counts'[g] == counts[g]
      invariant h == 0 ==> forall g :: 0 < g < |counts| ==> counts'[g] == counts[g]
    {
      h := h - 1;
      if h > 0 {
        assert IsBackoff(counts'[h + 1], bow[h]);
        NothingNew(counts, h, bow[h]);
        SameMaps(counts[h], bow[h].Keys, counts'[h]);
      }
    }
    CompletePositive(counts, counts');
  }

  lemma CompletePositive(counts: seq<map<Gram, int>>, counts': seq<map<Gram, int>>)
    requires |counts| == |counts'| && Complete(counts) && forall g :: 0 < g < |counts| ==> counts'[g] == counts[g]
    ensures AllPositive(counts')
  {
    forall h: nat, k | 0 < h < |counts'| && k in counts'[h] ensures counts'[h][k] > 0 { assert CompleteAt(counts, h, k); }
  }

  lemma NothingNew(counts: seq<map<Gram, int>>, h: nat, bo: map<Gram, real>)
    requires Complete(counts) && CountsShaped(counts) && 0 < h < |counts| - 1 && IsBackoff(counts[h + 1], bo)
    ensures bo.Keys <= counts[h].Keys
  {
    forall c | c in bo ensures c in counts[h] {
      var k :| k in Among(counts[h + 1].Keys, c);
      assert CompleteAt(counts, h + 1, k);
    }
  }

  lemma SameMaps(counts: map<Gram, int>, contexts: set<Gram>, ps: map<Gram, int>)
    requires WithZeros(counts, contexts, ps) && contexts <= counts.Keys
    ensures ps == counts
  {}

  /** If no count is 0, no context was entered. */
  lemma PositiveIsComplete(counts: seq<map<Gram, int>>, counts': seq<map<Gram, int>>, bow: seq<map<Gram, real>>)
    requires ContextsEntered(counts, counts', bow) && AllPositive(counts') && CountsShaped(counts)
    requires forall h :: 0 <= h < |bow| - 1 ==> IsBackoff(counts'[h + 1], bow[h])
    ensures Complete(counts)
  {
    hide IsBackoff, CountsShaped;
    forall h: nat, k | 0 < h < |counts| && k in counts[h] ensures CompleteAt(counts, h, k) {
      KeptCount(counts, counts', bow, h, k);
      if h > 1 && |k| > 0 {
        assert IsBackoff(counts'[h - 1 + 1], bow[h - 1]);
        ContextEntered(counts, counts', bow, h, k);
      }
    }
  }

  lemma KeptCount(counts: seq<map<Gram, int>>, counts': seq<map<Gram, int>>, bow: seq<map<Gram, real>>, h: nat, k: Gram)
    requires ContextsEntered(counts, counts', bow) && h < |counts| && k in counts[h]
    ensures k in counts'[h] && counts'[h][k] == counts[h][k]
  {
    if h < |counts| - 1 { assert WithZeros(counts[h], bow[h].Keys, counts'[h]); }
  }

  lemma ContextEntered(counts: seq<map<Gram, int>>, counts': seq<map<Gram, int>>, bow: seq<map<Gram, real>>, h: nat, k: Gram)
    requires ContextsEntered(counts, counts', bow) && AllPositive(counts') && 1 < h < |counts| && k in counts'[h] && |k| > 0
    requires IsBackoff(counts'[h], bow[h - 1])
    ensures Context(k) in counts[h - 1]
  {
    IsAmong(counts'[h].Keys, k);
    assert WithZeros(counts[h - 1], bow[h - 1].Keys, counts'[h - 1]);
    assert Context(k) in bow[h - 1] && Context(k) in counts'[h - 1];
  }

  // ----- texts -----

  lemma OccursOnce(text: seq<nat>, o: nat, k: Gram, a: nat, b: nat, w: nat)
    requires a <= w < b <= |text| && o <= w && text[w - o..w + 1] == k
    ensures Occurs(text, o, k, a, b) > 0
  {
    OccursAtPlaces(text, o, k, a, b);
    assert w in Places(text, o, k, a, b);
  }

  lemma OccursWhere(text: seq<nat>, o: nat, k: Gram, a: nat, b: nat) returns (w: nat)
    requires b <= |text| && Occurs(text, o, k, a, b) > 0
    ensures a <= w < b && o <= w && text[w - o..w + 1] == k
  {
    OccursAtPlaces(text, o, k, a, b);
    w :| w in Places(text, o, k, a, b);
  }

  /** Counting a text from its first or its second word on keeps the counts complete: the context of a gram that was counted
    * ends one word before it. */
  lemma CountingKeepsComplete(counts: seq<map<Gram, int>>, counts': seq<map<Gram, int>>, text: seq<nat>, start: nat)
    requires Counted(counts, counts', text, start, |text|) && start <= 1 && Complete(counts) && CountsShaped(counts)
    ensures Complete(counts')
  {
    forall h: nat, k | 0 < h < |counts'| && k in counts'[h] ensures CompleteAt(counts', h, k) {
      assert CountedOrder(counts[h], counts'[h], text, h, start, |text|);
      assert k in counts[h] ==> CompleteAt(counts, h, k);
      assert CountIn(counts'[h], k) == CountIn(counts[h], k) + Occurs(text, h, k, start, |text|);
      if h > 1 && |k| > 0 { ContextCounted(counts, counts', text, start, h, k); }
    }
  }

  lemma ContextCounted(counts: seq<map<Gram, int>>, counts': seq<map<Gram, int>>, text: seq<nat>, start: nat, h: nat, k: Gram)
    requires Counted(counts, counts', text, start, |text|) && start <= 1 && Complete(counts)
    requires 1 < h < |counts'| && k in counts'[h] && |k| > 0
    ensures Context(k) in counts'[h - 1]
  {
    assert CountedOrder(counts[h], counts'[h], text, h, start, |text|) && CountedOrder(counts[h - 1], counts'[h - 1], text, h - 1, start, |text|);
    if k in counts[h] {
      assert CompleteAt(counts, h, k);
    } else {
      var w := OccursWhere(text, h, k, start, |text|);
      assert text[w - 1 - (h - 1)..w] == Context(k);
      OccursOnce(text, h - 1, Context(k), start, |text|, w - 1);
    }
  }

  // ----- runs -----

  /** train_lm with interpolation, then uninterp: it gives back the shares exactly if what was counted was complete. */
  method TrainAndUndo(v: Ngram) returns (ok: bool, ghost raw: seq<map<Gram, real>>)
    requires v.Counting() && exists k :: k in v.counts[0] && v.counts[0][k] > 0
    modifies v
    ensures ok <==> Complete(old(v.counts))
    ensures TrainedFrom(old(v.counts), v.counts, v.bow, raw) && (ok ==> v.prob == raw)
  {
    hide Complete, TrainedFrom, Shaped, SameGrams, Normal, Backed, Interpolated, CountsShaped, AllSuffixes, Undoable;
    ghost var before := v.counts;
    raw := v.TrainLm(true);
    SameLengths(before, v.counts, v.bow, raw);
    UndoableIfComplete(before, v.counts, v.bow, raw);
    ok := v.Uninterp(raw);
  }

  datatype Line = Line(words: seq<nat>, pre: Option<nat>, post: Option<nat>)

  /** Whatever texts are counted whole, with or without words put around them, training is undone. */
  method TextsAreUndone(order: nat, unk: real, lines: seq<Line>) returns (ok: bool)
    requires order > 0 && exists l :: 0 <= l < |lines| && (lines[l].words != [] || lines[l].post.Some?)
    ensures ok
  {
    hide Complete, Counted, AllSuffixes;
    var v := new Ngram(order, unk);
    NothingIsComplete(v.counts);
    for l := 0 to |lines|
      invariant v.Counting() && Complete(v.counts)
      invariant (exists j :: 0 <= j < l && (lines[j].words != [] || lines[j].post.Some?)) ==> exists k :: k in v.counts[0] && v.counts[0][k] > 0
    {
      ghost var before := v.counts;
      var line := lines[l];
      v.CountText(line.words, 0, line.pre, line.post);
      ghost var text, start := Enclosed(line.words, line.pre, line.post), if line.pre.Some? then 1 else 0;
      CountingKeepsComplete(before, v.counts, text, start);
      WordCounted(before, v.counts, text, start);
    }
    ghost var raw;
    ok, raw := TrainAndUndo(v);
  }

  lemma NothingIsComplete(counts: seq<map<Gram, int>>)
    requires forall h :: 0 <= h < |counts| ==> counts[h] == map[]
    ensures Complete(counts)
  {}

  lemma WordCounted(counts: seq<map<Gram, int>>, counts': seq<map<Gram, int>>, text: seq<nat>, start: nat)
    requires Counted(counts, counts', text, start, |text|) && |counts| > 0 && CountsShaped(counts)
    ensures start < |text| ==> exists k :: k in counts'[0] && counts'[0][k] > 0
    ensures (exists k :: k in counts[0] && counts[0][k] > 0) ==> exists k :: k in counts'[0] && counts'[0][k] > 0
  {
    assert CountedOrder(counts[0], counts'[0], text, 0, start, |text|);
    if start < |text| {
      var k := text[start..start + 1];
      OccursOnce(text, 0, k, start, |text|, start);
      assert CountIn(counts'[0], k) == CountIn(counts[0], k) + Occurs(text, 0, k, start, |text|);
    }
    if k :| k in counts[0] && counts[0][k] > 0 {
      assert CountIn(counts'[0], k) == CountIn(counts[0], k) + Occurs(text, 0, k, start, |text|);
    }
  }

  /** The third of three words counted alone: the context 1 2 of 1 2 3 was not counted, and uninterp fails. */
  method ContextMissing() returns (ok: bool)
    ensures !ok
  {
    var v := new Ngram(3, 0.0);
    v.CountWord([1, 2, 3], 2);
    MissingIsIncomplete(v.counts);
    ghost var raw;
    ok, raw := TrainAndUndo(v);
  }

  lemma MissingIsIncomplete(counts: seq<map<Gram, int>>)
    requires |counts| == 3 && forall o :: 0 <= o < 3 ==> counts[o] == OneMore(map[], [1, 2, 3], 2, o)
    ensures !Complete(counts) && [3] in counts[0] && counts[0][[3]] > 0
  {
    var text: seq<nat> := [1, 2, 3];
    assert text[2..3] == [3] && text[1..3] == [2, 3] && text[0..3] == [1, 2, 3] && Context([1, 2, 3]) == [1, 2];
    assert counts[2] == OneMore(map[], text, 2, 2) && counts[1] == OneMore(map[], text, 2, 1) && counts[0] == OneMore(map[], text, 2, 0);
    assert [1, 2] != [2, 3];
    assert Context([1, 2, 3]) !in counts[1] && !CompleteAt(counts, 2, [1, 2, 3]);
  }
}
