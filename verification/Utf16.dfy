/** UTF-16 and back (utf8/checked.h), RFC 2781, and the unchecked fast forms (utf8/unchecked.h). */
module Utf16 {
  import opened Utf8Core
  import opened Utf8
  import opened Utf8Texts

  type Word = bv16

  const LEAD_OFFSET: bv32 := LEAD_SURROGATE_MIN - (0x10000 >> 10)
  /** 32-bit arithmetic: the value wraps around. */
  const SURROGATE_OFFSET: bv32 := 0x10000 - (LEAD_SURROGATE_MIN << 10) - TRAIL_SURROGATE_MIN

  /** A word as a 32-bit value. */
  function Wide(w: Word): bv32 { w as bv32 }

  function Low16(x: bv32): Word { (x & 0xffff) as bv16 }

  predicate IsLeadSurrogate(cp: bv32) { LEAD_SURROGATE_MIN <= cp <= LEAD_SURROGATE_MAX }

  predicate IsTrailSurrogate(cp: bv32) { TRAIL_SURROGATE_MIN <= cp <= TRAIL_SURROGATE_MAX }

  function Lead(cp: bv32): Word { Low16((cp >> 10) + LEAD_OFFSET) }

  function Trail(cp: bv32): Word { Low16((cp & 0x3ff) + TRAIL_SURROGATE_MIN) }

  function FromPair(lead: bv32, trail: bv32): bv32 { (lead << 10) + trail + SURROGATE_OFFSET }

  /** Beyond what one word holds. */
  predicate NeedsPair(cp: bv32) { cp > 0xffff }

  /** The words of a code point (section 2.1 of RFC 2781). */
  function Encode16(cp: bv32): (r: seq<Word>)
    ensures 1 <= |r| <= 2
  {
    if NeedsPair(cp) then [Lead(cp), Trail(cp)] else [Low16(cp)]
  }

  /** The code point at i (section 2.2 of RFC 2781): none at a surrogate that is not the first of a pair. */
  function Decode16(w: seq<Word>, i: nat): (r: Step)
    requires i < |w|
    ensures r.Good? ==> i < r.next <= |w|
  {
    var cp := Wide(w[i]);
    if IsLeadSurrogate(cp) then
      if i + 1 < |w| && IsTrailSurrogate(Wide(w[i + 1])) then Good(FromPair(cp, Wide(w[i + 1])), i + 2) else Bad(InvalidCodePoint)
    else if IsTrailSurrogate(cp) then Bad(InvalidCodePoint)
    else Good(cp, i + 1)
  }

  lemma PairWords(cp: bv32, a: Word, b: Word)
    requires IsCodePointValid(cp) && NeedsPair(cp) && a == Lead(cp) && b == Trail(cp)
    ensures IsLeadSurrogate(Wide(a)) && IsTrailSurrogate(Wide(b)) && FromPair(Wide(a), Wide(b)) == cp
  {
    AboveFfff(cp);
    PairHalves(cp, a, b, cp >> 10, cp & 0x3ff);
  }

  lemma PairHalves(cp: bv32, a: Word, b: Word, x: bv32, y: bv32)
    requires 0x10000 <= cp <= CODE_POINT_MAX && x == cp >> 10 && y == cp & 0x3ff
    requires a == Low16(x + LEAD_OFFSET) && b == Low16(y + TRAIL_SURROGATE_MIN)
    ensures IsLeadSurrogate(Wide(a)) && IsTrailSurrogate(Wide(b)) && FromPair(Wide(a), Wide(b)) == cp
  {
    hide *;
    Halves(cp, x, y);
    LeadValue(x, a);
    TrailValue(y, b);
    Rejoined(x, y, Wide(a), Wide(b));
  }

  lemma Halves(cp: bv32, x: bv32, y: bv32)
    requires 0x10000 <= cp <= CODE_POINT_MAX && x == cp >> 10 && y == cp & 0x3ff
    ensures 0x40 <= x <= 0x43f && y <= 0x3ff && cp == (x << 10) + y
  {
    HalvesBounded(cp, x, y);
    HalvesAdd(cp);
  }

  lemma HalvesBounded(cp: bv32, x: bv32, y: bv32)
    requires 0x10000 <= cp <= CODE_POINT_MAX && x == cp >> 10 && y == cp & 0x3ff
    ensures 0x40 <= x <= 0x43f && y <= 0x3ff
  {}

  lemma HalvesAdd(cp: bv32)
    ensures cp == ((cp >> 10) << 10) + (cp & 0x3ff)
  {}

  lemma LeadValue(x: bv32, a: Word)
    requires 0x40 <= x <= 0x43f && a == Low16(x + LEAD_OFFSET)
    ensures Wide(a) == x + LEAD_OFFSET && IsLeadSurrogate(Wide(a))
  {}

  lemma TrailValue(y: bv32, b: Word)
    requires y <= 0x3ff && b == Low16(y + TRAIL_SURROGATE_MIN)
    ensures Wide(b) == y + TRAIL_SURROGATE_MIN && IsTrailSurrogate(Wide(b))
  {}

  lemma Rejoined(x: bv32, y: bv32, a: bv32, b: bv32)
    requires x <= 0x43f && y <= 0x3ff && a == x + LEAD_OFFSET && b == y + TRAIL_SURROGATE_MIN
    ensures FromPair(a, b) == (x << 10) + y
  {}

  lemma SingleWord(cp: bv32, a: Word)
    requires !NeedsPair(cp) && IsCodePointValid(cp) && a == Low16(cp)
    ensures Wide(a) == cp && !IsLeadSurrogate(cp) && !IsTrailSurrogate(cp)
  {}

  lemma AboveFfff(cp: bv32)
    requires IsCodePointValid(cp) && NeedsPair(cp)
    ensures 0x10000 <= cp <= CODE_POINT_MAX
  {}

  lemma PairCode(a: Word, b: Word, cp: bv32)
    requires IsLeadSurrogate(Wide(a)) && IsTrailSurrogate(Wide(b)) && cp == FromPair(Wide(a), Wide(b))
    ensures NeedsPair(cp) && Lead(cp) == a && Trail(cp) == b && IsCodePointValid(cp)
  {
    hide Wide, Low16, IsLeadSurrogate, IsTrailSurrogate, FromPair, NeedsPair, IsCodePointValid;
    PairIsValid(Wide(a), Wide(b));
    PairLead(Wide(a), Wide(b));
    PairTrail(Wide(a), Wide(b));
    Narrowed(a);
    Narrowed(b);
  }

  lemma PairIsValid(l: bv32, t: bv32)
    requires IsLeadSurrogate(l) && IsTrailSurrogate(t)
    ensures NeedsPair(FromPair(l, t)) && IsCodePointValid(FromPair(l, t))
  {}

  lemma PairLead(l: bv32, t: bv32)
    requires IsLeadSurrogate(l) && IsTrailSurrogate(t)
    ensures (FromPair(l, t) >> 10) + LEAD_OFFSET == l
  {}

  lemma PairTrail(l: bv32, t: bv32)
    requires IsLeadSurrogate(l) && IsTrailSurrogate(t)
    ensures (FromPair(l, t) & 0x3ff) + TRAIL_SURROGATE_MIN == t
  {}

  lemma Narrowed(a: Word)
    ensures Low16(Wide(a)) == a
  {}

  lemma SingleCode(a: Word)
    requires !IsLeadSurrogate(Wide(a)) && !IsTrailSurrogate(Wide(a))
    ensures IsCodePointValid(Wide(a)) && !NeedsPair(Wide(a)) && Low16(Wide(a)) == a
  {}

  lemma Decodes16Encoded(cp: bv32, w: seq<Word>, i: nat)
    requires IsCodePointValid(cp) && i + |Encode16(cp)| <= |w| && w[i..i + |Encode16(cp)|] == Encode16(cp)
    ensures i < |w| && Decode16(w, i) == Good(cp, i + |Encode16(cp)|)
  {
    hide *;
    EncodedLength(cp);
    if NeedsPair(cp) {
      PairEncoded(cp);
      TwoWords(w, i);
      PairWords(cp, w[i], w[i + 1]);
      DecodesPair(w, i, w[i], w[i + 1], cp);
    } else {
      SingleEncoded(cp);
      OneWord(w, i);
      SingleWord(cp, w[i]);
      DecodesSingle(w, i, w[i], cp);
    }
  }

  lemma EncodedLength(cp: bv32)
    ensures |Encode16(cp)| == if NeedsPair(cp) then 2 else 1
  {
    hide Lead, Trail, Low16, NeedsPair;
  }

  lemma DecodesPair(w: seq<Word>, i: nat, a: Word, b: Word, cp: bv32)
    requires i + 1 < |w| && w[i] == a && w[i + 1] == b
    requires IsLeadSurrogate(Wide(a)) && IsTrailSurrogate(Wide(b)) && FromPair(Wide(a), Wide(b)) == cp
    ensures Decode16(w, i) == Good(cp, i + 2)
  {
    hide FromPair, IsLeadSurrogate, IsTrailSurrogate, Wide;
  }

  lemma DecodesSingle(w: seq<Word>, i: nat, a: Word, cp: bv32)
    requires i < |w| && w[i] == a && Wide(a) == cp && !IsLeadSurrogate(cp) && !IsTrailSurrogate(cp)
    ensures Decode16(w, i) == Good(cp, i + 1)
  {
    hide FromPair, IsLeadSurrogate, IsTrailSurrogate, Wide;
  }

  lemma Encodes16Decoded(w: seq<Word>, i: nat)
    requires i < |w| && Decode16(w, i).Good?
    ensures IsCodePointValid(Decode16(w, i).cp) && w[i..Decode16(w, i).next] == Encode16(Decode16(w, i).cp)
  {
    hide *;
    DecodedParts(w, i);
    if IsLeadSurrogate(Wide(w[i])) {
      PairThereAndBack(w[i], w[i + 1]);
      TwoWords(w, i);
    } else {
      SingleThereAndBack(w[i]);
      OneWord(w, i);
    }
  }

  lemma PairThereAndBack(a: Word, b: Word)
    requires IsLeadSurrogate(Wide(a)) && IsTrailSurrogate(Wide(b))
    ensures IsCodePointValid(FromPair(Wide(a), Wide(b))) && Encode16(FromPair(Wide(a), Wide(b))) == [a, b]
  {
    hide *;
    var cp := FromPair(Wide(a), Wide(b));
    PairCode(a, b, cp);
    PairEncoded(cp);
  }

  lemma SingleThereAndBack(a: Word)
    requires !IsLeadSurrogate(Wide(a)) && !IsTrailSurrogate(Wide(a))
    ensures IsCodePointValid(Wide(a)) && Encode16(Wide(a)) == [a]
  {
    hide *;
    SingleCode(a);
    SingleEncoded(Wide(a));
  }

  lemma OneWord(w: seq<Word>, i: nat)
    requires i < |w|
    ensures w[i..i + 1] == [w[i]]
  {}

  lemma TwoWords(w: seq<Word>, i: nat)
    requires i + 1 < |w|
    ensures w[i..i + 2] == [w[i], w[i + 1]]
  {}

  lemma DecodedParts(w: seq<Word>, i: nat)
    requires i < |w| && Decode16(w, i).Good?
    ensures IsLeadSurrogate(Wide(w[i])) ==>
      i + 1 < |w| && IsTrailSurrogate(Wide(w[i + 1])) && Decode16(w, i) == Good(FromPair(Wide(w[i]), Wide(w[i + 1])), i + 2)
    ensures !IsLeadSurrogate(Wide(w[i])) ==> !IsTrailSurrogate(Wide(w[i])) && Decode16(w, i) == Good(Wide(w[i]), i + 1)
  {
    hide FromPair, IsLeadSurrogate, IsTrailSurrogate, Wide;
  }

  lemma PairEncoded(cp: bv32)
    requires NeedsPair(cp)
    ensures Encode16(cp) == [Lead(cp), Trail(cp)]
  {
    hide Lead, Trail, Low16, NeedsPair;
  }

  lemma SingleEncoded(cp: bv32)
    requires !NeedsPair(cp)
    ensures Encode16(cp) == [Low16(cp)]
  {
    hide Lead, Trail, Low16, NeedsPair;
  }

  // ----- texts -----

  ghost predicate Words(w: seq<Word>, i: nat)
    requires i <= |w|
    decreases |w| - i
  {
    i == |w| || (Decode16(w, i).Good? && Words(w, Decode16(w, i).next))
  }

  ghost predicate WellFormed16(w: seq<Word>) {
    Words(w, 0)
  }

  ghost function CodePoints16(w: seq<Word>, i: nat): seq<bv32>
    requires i <= |w| && Words(w, i)
    decreases |w| - i
  {
    if i == |w| then [] else [Decode16(w, i).cp] + CodePoints16(w, Decode16(w, i).next)
  }

  ghost function Encoded16(cps: seq<bv32>): seq<Word> {
    if |cps| == 0 then [] else Encode16(cps[0]) + Encoded16(cps[1..])
  }

  lemma {:induction false} WordsAreEncoded(w: seq<Word>, i: nat)
    requires i <= |w| && Words(w, i)
    ensures AllValid(CodePoints16(w, i)) && Encoded16(CodePoints16(w, i)) == w[i..]
    decreases |w| - i
  {
    hide Decode16, Encode16, IsCodePointValid;
    if i < |w| {
      Encodes16Decoded(w, i);
      var next := Decode16(w, i).next;
      WordsAreEncoded(w, next);
      assert w[i..] == w[i..next] + w[next..];
      var rest := CodePoints16(w, next);
      assert ([Decode16(w, i).cp] + rest)[1..] == rest;
    }
  }

  lemma {:induction false} EncodedAreWords(cps: seq<bv32>, before: seq<Word>)
    requires AllValid(cps)
    ensures var w := before + Encoded16(cps); Words(w, |before|) && CodePoints16(w, |before|) == cps
    decreases |cps|
  {
    hide Decode16, Encode16, IsCodePointValid;
    var w := before + Encoded16(cps);
    if |cps| > 0 {
      var e := Encode16(cps[0]);
      assert w == (before + e) + Encoded16(cps[1..]);
      assert w[|before|..|before| + |e|] == e;
      Decodes16Encoded(cps[0], w, |before|);
      EncodedAreWords(cps[1..], before + e);
      assert cps == [cps[0]] + cps[1..];
    }
  }

  /** The same text in the other form. */
  ghost function To16(s: seq<Octet>): seq<Word>
    requires WellFormed(s)
  {
    Encoded16(CodePoints(s, 0))
  }

  ghost function To8(w: seq<Word>): seq<Octet>
    requires WellFormed16(w)
  {
    Encoded(CodePoints16(w, 0))
  }

  /** utf16to8 undoes utf8to16. */
  lemma To8UndoesTo16(s: seq<Octet>)
    requires WellFormed(s)
    ensures WellFormed16(To16(s)) && To8(To16(s)) == s
  {
    hide Chars, Encoded, Encoded16, Words, CodePoints, CodePoints16;
    TextIsEncoded(s, 0);
    EncodedAreWords(CodePoints(s, 0), []);
    assert [] + To16(s) == To16(s) && s[0..] == s;
  }

  /** utf8to16 undoes utf16to8. */
  lemma To16UndoesTo8(w: seq<Word>)
    requires WellFormed16(w)
    ensures WellFormed(To8(w)) && To16(To8(w)) == w
  {
    hide Chars, Encoded, Encoded16, Words, CodePoints, CodePoints16;
    WordsAreEncoded(w, 0);
    EncodedIsText(CodePoints16(w, 0), []);
    assert [] + To8(w) == To8(w) && w[0..] == w;
  }

  // ----- the conversions -----

  /** Reading on from a stops at i, where nothing decodes. */
  ghost predicate StopsAt(w: seq<Word>, a: nat, i: nat)
    decreases |w| - a
  {
    a <= i < |w| && if Decode16(w, a).Bad? then a == i else StopsAt(w, Decode16(w, a).next, i)
  }

  /** The word that is not what it should be: the one after a first surrogate, if there is one, or a surrogate on its own. */
  function Offending(w: seq<Word>, i: nat): Word
    requires i < |w|
  {
    if IsLeadSurrogate(Wide(w[i])) && i + 1 < |w| then w[i + 1] else w[i]
  }

  /** utf16to8 succeeds exactly on well-formed words. */
  method Utf16to8(w: seq<Word>) returns (r: Result<seq<Octet>>)
    ensures r.Returns? <==> WellFormed16(w)
    ensures r.Returns? ==> r.value == To8(w)
    ensures r.Throws? ==> exists i :: StopsAt(w, 0, i) && r.ex == BadUtf16(Offending(w, i))
  {
    hide Encode, IsCodePointValid, IsLeadSurrogate, IsTrailSurrogate, FromPair, Wide;
    var start, result := 0, [];
    assert WellFormed16(w) ==> [] + To8(w) == To8(w);
    while start != |w|
      invariant start <= |w| && (WellFormed16(w) <==> Words(w, start))
      invariant WellFormed16(w) ==> result + Encoded(CodePoints16(w, start)) == To8(w)
      invariant forall i :: StopsAt(w, start, i) ==> StopsAt(w, 0, i)
      decreases |w| - start
    {
      var at := start;
      ghost var before := result;
      var cp := Wide(w[start]);
      start := start + 1;
      if IsLeadSurrogate(cp) {
        if start != |w| {
          var trail := Wide(w[start]);
          start := start + 1;
          if IsTrailSurrogate(trail) {
            cp := FromPair(cp, trail);
          } else {
            assert StopsAt(w, at, at);
            return Throws(BadUtf16(w[start - 1]));
          }
        } else {
          assert StopsAt(w, at, at);
          return Throws(BadUtf16(w[at]));
        }
      } else if IsTrailSurrogate(cp) {
        assert StopsAt(w, at, at);
        return Throws(BadUtf16(w[at]));
      }
      assert Decode16(w, at) == Good(cp, start);
      Encodes16Decoded(w, at);
      var appended := Append(cp, result);
      result := appended.value;
      if Words(w, start) { EncodedCons(cp, CodePoints16(w, start), before); }
    }
    assert result + [] == result;
    r := Returns(result);
  }

  lemma EncodedCons(cp: bv32, cps: seq<bv32>, before: seq<Octet>)
    ensures before + Encoded([cp] + cps) == (before + Encode(cp)) + Encoded(cps)
  {
    assert ([cp] + cps)[1..] == cps;
  }

  lemma Encoded16Cons(cp: bv32, cps: seq<bv32>, before: seq<Word>)
    ensures before + Encoded16([cp] + cps) == (before + Encode16(cp)) + Encoded16(cps)
  {
    assert ([cp] + cps)[1..] == cps;
  }

  /** Well-formed up to p, where nothing decodes. */
  ghost predicate StopsAt8(s: seq<Octet>, p: nat) {
    p < |s| && Chars(s, 0, p) && Checked(s, p).Bad?
  }

  /** utf8to16 succeeds exactly on well-formed octets. */
  method Utf8to16(s: seq<Octet>) returns (r: Result<seq<Word>>)
    ensures r.Returns? <==> WellFormed(s)
    ensures r.Returns? ==> r.value == To16(s)
    ensures r.Throws? ==> exists p: nat :: StopsAt8(s, p) && r.ex == Thrown(Checked(s, p).err, s[p])
  {
    hide Checked, Lead, Trail, Low16, NeedsPair;
    var start, result := 0, [];
    assert WellFormed(s) ==> [] + To16(s) == To16(s);
    while start != |s|
      invariant start <= |s| && (WellFormed(s) <==> Chars(s, start, |s|)) && Chars(s, 0, start)
      invariant WellFormed(s) ==> result + Encoded16(CodePoints(s, start)) == To16(s)
      decreases |s| - start
    {
      ghost var at, before := start, result;
      var cp;
      cp, start := Next(s, start);
      if cp.Throws? {
        assert StopsAt8(s, at);
        return Throws(cp.ex);
      }
      NextWithin(s, at);
      CharsSnoc(s, 0, at);
      if NeedsPair(cp.value) {
        result := result + [Lead(cp.value)];
        result := result + [Trail(cp.value)];
      } else {
        result := result + [Low16(cp.value)];
      }
      assert result == before + Encode16(cp.value);
      if Chars(s, start, |s|) { Encoded16Cons(cp.value, CodePoints(s, start), before); }
    }
    assert result + [] == result;
    r := Returns(result);
  }

  // ----- the unchecked forms -----

  /** unchecked::next: right on whatever the checked form accepts. */
  method UncheckedNext(s: seq<Octet>, it: nat) returns (cp: bv32, it': nat)
    requires it < |s| && it + SequenceLength(s[it]) <= |s|
    ensures Checked(s, it).Good? ==> cp == Checked(s, it).cp && it' == Checked(s, it).next
  {
    hide IsTrail, IsCodePointValid, IsOverlongSequence, First2, First3, First4, Last, LastButOne, LastButTwo, Plus;
    TrailsUnfold(s, it);
    var length := SequenceLength(s[it]);
    hide SequenceLength, Trails;
    cp, it' := s[it] as bv32, it;
    if length == 2 {
      it' := it' + 1;
      cp := Plus(First2(cp), Last(s[it']));
    } else if length == 3 {
      it' := it' + 1;
      cp := Plus(First3(cp), LastButOne(s[it']));
      it' := it' + 1;
      cp := Plus(cp, Last(s[it']));
    } else if length == 4 {
      it' := it' + 1;
      cp := Plus(First4(cp), LastButTwo(s[it']));
      it' := it' + 1;
      cp := Plus(cp, LastButOne(s[it']));
      it' := it' + 1;
      cp := Plus(cp, Last(s[it']));
    }
    it' := it' + 1;
  }

  /** unchecked::prior: undoes unchecked::next, where a well-formed sequence ends. */
  method UncheckedPrior(s: seq<Octet>, it: nat) returns (cp: bv32, it': nat)
    requires exists p: nat :: SequenceEnds(s, p, it)
    ensures SequenceEnds(s, it', it) && cp == Checked(s, it').cp
    ensures forall p: nat :: SequenceEnds(s, p, it) ==> p == it'
  {
    hide Checked, IsTrail;
    forall p: nat | SequenceEnds(s, p, it) ensures !IsTrail(s[p]) && forall j :: p < j < it ==> IsTrail(s[j]) {
      SequenceOctets(s, p);
    }
    it' := it - 1;
    while IsTrail(s[it'])
      invariant it' < it && forall p: nat :: SequenceEnds(s, p, it) ==> p <= it'
      decreases it'
    {
      it' := it' - 1;
    }
    ghost var p: nat :| SequenceEnds(s, p, it);
    LengthWithin(s, p);
    var ignored;
    cp, ignored := UncheckedNext(s, it');
  }

  /** The octets from p to `it` are a well-formed sequence. */
  ghost predicate SequenceEnds(s: seq<Octet>, p: nat, it: nat) {
    p < it <= |s| && Checked(s, p).Good? && Checked(s, p).next == it
  }

  /** unchecked::append */
  method UncheckedAppend(cp: bv32, out: seq<Octet>) returns (result: seq<Octet>)
    ensures result == out + Encode(cp)
  {
    hide Low8;
    result := out;
    if cp < 0x80 {
      result := result + [Low8(cp)];
    } else if cp < 0x800 {
      result := result + [Low8((cp >> 6) | 0xc0)];
      result := result + [Low8((cp & 0x3f) | 0x80)];
      assert result == out + Enc2(cp);
    } else if cp < 0x10000 {
      result := result + [Low8((cp >> 12) | 0xe0)];
      result := result + [Low8(((cp >> 6) & 0x3f) | 0x80)];
      result := result + [Low8((cp & 0x3f) | 0x80)];
      assert result == out + Enc3(cp);
    } else {
      result := result + [Low8((cp >> 18) | 0xf0)];
      result := result + [Low8(((cp >> 12) & 0x3f) | 0x80)];
      result := result + [Low8(((cp >> 6) & 0x3f) | 0x80)];
      result := result + [Low8((cp & 0x3f) | 0x80)];
      assert result == out + Enc4(cp);
    }
  }

  /** unchecked::utf16to8 agrees with the checked form on well-formed words. */
  method UncheckedUtf16to8(w: seq<Word>) returns (result: seq<Octet>)
    requires WellFormed16(w)
    ensures result == To8(w)
  {
    hide Encode, IsCodePointValid, IsLeadSurrogate, IsTrailSurrogate, FromPair, Wide;
    var start := 0;
    result := [];
    assert [] + To8(w) == To8(w);
    while start != |w|
      invariant start <= |w| && Words(w, start) && result + Encoded(CodePoints16(w, start)) == To8(w)
      decreases |w| - start
    {
      ghost var at, before := start, result;
      var cp := Wide(w[start]);
      start := start + 1;
      if IsLeadSurrogate(cp) {
        var trail := Wide(w[start]);
        start := start + 1;
        cp := FromPair(cp, trail);
      }
      assert Decode16(w, at) == Good(cp, start);
      result := UncheckedAppend(cp, result);
      EncodedCons(cp, CodePoints16(w, start), before);
    }
    assert result + [] == result;
  }

  /** unchecked::utf8to16 agrees with the checked form on well-formed octets. */
  method UncheckedUtf8to16(s: seq<Octet>) returns (result: seq<Word>)
    requires WellFormed(s)
    ensures result == To16(s)
  {
    hide Checked, Lead, Trail, Low16, NeedsPair;
    var start := 0;
    result := [];
    assert [] + To16(s) == To16(s);
    while start < |s|
      invariant start <= |s| && Chars(s, start, |s|) && result + Encoded16(CodePoints(s, start)) == To16(s)
      decreases |s| - start
    {
      ghost var at, before := start, result;
      NextWithin(s, at);
      LengthWithin(s, at);
      var cp;
      cp, start := UncheckedNext(s, start);
      if NeedsPair(cp) {
        result := result + [Lead(cp)];
        result := result + [Trail(cp)];
      } else {
        result := result + [Low16(cp)];
      }
      assert result == before + Encode16(cp);
      Encoded16Cons(cp, CodePoints(s, start), before);
    }
    assert result + [] == result;
  }

  lemma LengthWithin(s: seq<Octet>, it: nat)
    requires it < |s| && Checked(s, it).Good?
    ensures it + SequenceLength(s[it]) <= |s|
  {}
}
