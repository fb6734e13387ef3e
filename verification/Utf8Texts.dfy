/** find_invalid, replace_invalid and prior (utf8/core.h, utf8/checked.h). */
module Utf8Texts {
  import opened Utf8Core
  import opened Utf8

  lemma {:induction false} CharsInSlice(s: seq<Octet>, a: nat, b: nat, it: nat)
    requires a <= it <= b <= |s|
    ensures Chars(s, it, b) <==> Chars(s[a..b], it - a, b - a)
    decreases b - it
  {
    hide Checked;
    if it < b {
      var t := s[a..b];
      if Checked(s, it).Good? && Checked(s, it).next <= b {
        NextWithin(s, it);
        GoodInSlice(s, a, b, it);
        CharsInSlice(s, a, b, Checked(s, it).next);
      }
      if Checked(t, it - a).Good? {
        NextWithin(t, it - a);
        GoodFromSlice(s, a, b, it);
      }
    }
  }

  lemma {:induction false} CharsSnoc(s: seq<Octet>, a: nat, b: nat)
    requires a <= b < |s| && Chars(s, a, b) && Checked(s, b).Good?
    ensures Checked(s, b).next <= |s| && Chars(s, a, Checked(s, b).next)
    decreases b - a
  {
    hide Checked;
    NextWithin(s, b);
    if a < b {
      NextWithin(s, a);
      CharsSnoc(s, Checked(s, a).next, b);
    }
  }

  /** Two ways to read on from a: the shorter is a start of the longer. */
  lemma {:induction false} CharsAgree(s: seq<Octet>, a: nat, b: nat, c: nat)
    requires a <= b < c <= |s| && Chars(s, a, b) && Chars(s, a, c)
    ensures Checked(s, b).Good?
    decreases b - a
  {
    hide Checked;
    if a < b {
      NextWithin(s, a);
      CharsAgree(s, Checked(s, a).next, b, c);
    }
  }

  /** find_invalid: the end of the longest well-formed text that the range starts with. */
  method FindInvalid(s: seq<Octet>, start: nat) returns (r: nat)
    requires start <= |s|
    ensures start <= r <= |s| && WellFormed(s[start..r])
    ensures forall p :: r < p <= |s| ==> !WellFormed(s[start..p])
  {
    hide Checked, Chars;
    r := start;
    assert Chars(s, start, start) by { NoChars(s, start); }
    while r != |s|
      invariant start <= r <= |s| && Chars(s, start, r)
      decreases |s| - r
    {
      var err, it', cp := ValidateNext(s, r);
      if err != Utf8Ok {
        LongestPrefix(s, start, r);
        return;
      }
      CharsSnoc(s, start, r);
      NextWithin(s, r);
      r := it';
    }
    LongestPrefix(s, start, r);
  }

  lemma NoChars(s: seq<Octet>, a: nat)
    requires a <= |s|
    ensures Chars(s, a, a)
  {}

  lemma LongestPrefix(s: seq<Octet>, start: nat, r: nat)
    requires start <= r <= |s| && Chars(s, start, r) && (r < |s| ==> Checked(s, r).Bad?)
    ensures WellFormed(s[start..r])
    ensures forall p :: r < p <= |s| ==> !WellFormed(s[start..p])
  {
    hide Checked, Chars;
    CharsInSlice(s, start, r, start);
    forall p | r < p <= |s| ensures !WellFormed(s[start..p]) {
      CharsInSlice(s, start, p, start);
      if Chars(s, start, p) { CharsAgree(s, start, r, p); }
    }
  }

  /** is_valid */
  method IsValid(s: seq<Octet>) returns (b: bool)
    ensures b <==> WellFormed(s)
  {
    hide Chars;
    var r := FindInvalid(s, 0);
    b := r == |s|;
    assert s[0..|s|] == s;
  }

  // ----- replace_invalid -----

  function SkipTrails(s: seq<Octet>, it: nat): (r: nat)
    requires it <= |s|
    ensures it <= r <= |s|
    decreases |s| - it
  {
    if it < |s| && IsTrail(s[it]) then SkipTrails(s, it + 1) else it
  }

  function Prepend(a: seq<Octet>, r: Result<seq<Octet>>): Result<seq<Octet>> {
    if r.Returns? then Returns(a + r.value) else r
  }

  /** What replace_invalid writes from `it` on, or throws. */
  function Replaced(s: seq<Octet>, it: nat, replacement: bv32): Result<seq<Octet>>
    requires it <= |s|
    decreases |s| - it
  {
    if it == |s| then Returns([]) else
    match Checked(s, it)
    case Good(_, next) => Prepend(s[it..next], Replaced(s, next, replacement))
    case Bad(err) =>
      if err == NotEnoughRoom then Throws(OutOfRoom)
      else if !IsCodePointValid(replacement) then Throws(BadCodePoint(replacement))
      else Prepend(Encode(replacement), Replaced(s, if err == InvalidLead then it + 1 else SkipTrails(s, it + 1), replacement))
  }

  method ReplaceInvalid(s: seq<Octet>, replacement: bv32) returns (r: Result<seq<Octet>>)
    ensures r == Replaced(s, 0, replacement)
    ensures r.Returns? ==> exists cuts: seq<nat>, ends: seq<nat> :: InPieces(s, 0, r.value, 0, replacement, cuts, ends)
  {
    hide Checked, IsCodePointValid, IsTrail, Encode, InPieces;
    var start, out := 0, [];
    PrependEmpty(Replaced(s, 0, replacement));
    while start != |s|
      invariant start <= |s| && Prepend(out, Replaced(s, start, replacement)) == Replaced(s, 0, replacement)
      decreases |s| - start
    {
      var sequenceStart := start;
      ghost var before := out;
      var err, it', cp := ValidateNext(s, start);
      start := it';
      if err == Utf8Ok {
        NextWithin(s, sequenceStart);
        var it := sequenceStart;
        while it != start
          invariant sequenceStart <= it <= start && out == before + s[sequenceStart..it]
          decreases start - it
        {
          out := out + [s[it]];
          it := it + 1;
        }
        PrependTwice(before, s[sequenceStart..start], Replaced(s, start, replacement));
      } else if err == NotEnoughRoom {
        return Throws(OutOfRoom);
      } else {
        var appended := Append(replacement, out);
        if appended.Throws? { return appended; }
        out := appended.value;
        start := start + 1;
        if err != InvalidLead {
          start := PastTrails(s, start);
        }
        PrependTwice(before, Encode(replacement), Replaced(s, start, replacement));
      }
    }
    assert out + [] == out;
    r := Returns(out);
    assert out[0..] == out;
    ghost var cuts, ends := ReplacedInPieces(s, 0, out, 0, replacement);
  }

  lemma PrependEmpty(r: Result<seq<Octet>>)
    ensures Prepend([], r) == r
  {
    if r.Returns? { assert [] + r.value == r.value; }
  }

  /** while (start != end && is_trail(*start)) ++start */
  method PastTrails(s: seq<Octet>, it: nat) returns (r: nat)
    requires it <= |s|
    ensures r == SkipTrails(s, it)
  {
    hide IsTrail;
    r := it;
    while r != |s| && IsTrail(s[r])
      invariant it <= r <= |s| && SkipTrails(s, r) == SkipTrails(s, it)
    {
      r := r + 1;
    }
  }

  lemma PrependTwice(a: seq<Octet>, b: seq<Octet>, r: Result<seq<Octet>>)
    ensures Prepend(a, Prepend(b, r)) == Prepend(a + b, r)
  {
    if r.Returns? { assert a + (b + r.value) == (a + b) + r.value; }
  }

  lemma EncodedSplit(a: seq<bv32>)
    ensures if |a| == 0 then Encoded(a) == [] else Encoded(a) == Encode(a[0]) + Encoded(a[1..])
  {}

  lemma Assoc(x: seq<Octet>, y: seq<Octet>, z: seq<Octet>)
    ensures (x + y) + z == x + (y + z)
  {}

  lemma {:induction false} EncodedConcat(a: seq<bv32>, b: seq<bv32>)
    ensures Encoded(a + b) == Encoded(a) + Encoded(b)
  {
    hide *;
    if |a| == 0 {
      EncodedSplit(a);
      assert a + b == b && [] + Encoded(b) == Encoded(b);
    } else {
      EncodedConcat(a[1..], b);
      assert (a + b)[1..] == a[1..] + b && (a + b)[0] == a[0];
      EncodedSplit(a + b);
      EncodedSplit(a);
      Assoc(Encode(a[0]), Encoded(a[1..]), Encoded(b));
    }
  }

  lemma WellFormedIsEncoded(s: seq<Octet>)
    ensures WellFormed(s) <==> exists cps :: AllValid(cps) && Encoded(cps) == s
  {
    hide Chars, Encode;
    if WellFormed(s) {
      TextIsEncoded(s, 0);
      assert s[0..] == s;
    }
    if exists cps :: AllValid(cps) && Encoded(cps) == s {
      var cps :| AllValid(cps) && Encoded(cps) == s;
      EncodedIsText(cps, []);
      assert [] + Encoded(cps) == s;
    }
  }

  lemma WellFormedConcat(a: seq<Octet>, b: seq<Octet>)
    requires WellFormed(a) && WellFormed(b)
    ensures WellFormed(a + b)
  {
    hide WellFormed;
    WellFormedIsEncoded(a);
    WellFormedIsEncoded(b);
    var ca :| AllValid(ca) && Encoded(ca) == a;
    var cb :| AllValid(cb) && Encoded(cb) == b;
    EncodedConcat(ca, cb);
    WellFormedIsEncoded(a + b);
    assert AllValid(ca + cb);
  }

  lemma EncodeIsWellFormed(cp: bv32)
    requires IsCodePointValid(cp)
    ensures WellFormed(Encode(cp))
  {
    hide WellFormed, Encode;
    assert [cp][1..] == [] && Encoded([cp]) == Encode(cp) + [] == Encode(cp);
    WellFormedIsEncoded(Encode(cp));
    assert AllValid([cp]);
  }

  /** Whatever comes out is well-formed. */
  lemma {:induction false} ReplacedIsWellFormed(s: seq<Octet>, it: nat, replacement: bv32)
    requires it <= |s| && Replaced(s, it, replacement).Returns?
    ensures WellFormed(Replaced(s, it, replacement).value)
    decreases |s| - it
  {
    hide Checked, WellFormed, Encode, IsCodePointValid, Chars;
    if it == |s| {
      assert WellFormed([]) by { EmptyIsWellFormed(); }
    } else if Checked(s, it).Good? {
      NextWithin(s, it);
      var next := Checked(s, it).next;
      ReplacedIsWellFormed(s, next, replacement);
      EncodesDecoded(s, it);
      EncodeIsWellFormed(Checked(s, it).cp);
      WellFormedConcat(s[it..next], Replaced(s, next, replacement).value);
    } else {
      var next := if Checked(s, it).err == InvalidLead then it + 1 else SkipTrails(s, it + 1);
      ReplacedIsWellFormed(s, next, replacement);
      EncodeIsWellFormed(replacement);
      WellFormedConcat(Encode(replacement), Replaced(s, next, replacement).value);
    }
  }

  lemma EmptyIsWellFormed()
    ensures WellFormed([])
  {}

  /** Well-formed input comes out unchanged, whatever the replacement. */
  lemma {:induction false} ReplacedKeepsText(s: seq<Octet>, it: nat, replacement: bv32)
    requires it <= |s| && Chars(s, it, |s|)
    ensures Replaced(s, it, replacement) == Returns(s[it..])
    decreases |s| - it
  {
    hide Checked, Encode, IsCodePointValid;
    if it < |s| {
      NextWithin(s, it);
      var next := Checked(s, it).next;
      ReplacedKeepsText(s, next, replacement);
      assert s[it..] == s[it..next] + s[next..];
    } else {
      assert s[it..] == [];
    }
  }

  /** Replacing again changes nothing. */
  lemma ReplaceIsIdempotent(s: seq<Octet>, replacement: bv32, again: bv32)
    requires Replaced(s, 0, replacement).Returns?
    ensures var r := Replaced(s, 0, replacement).value; WellFormed(r) && Replaced(r, 0, again) == Returns(r)
  {
    hide Replaced, Chars;
    var r := Replaced(s, 0, replacement).value;
    ReplacedIsWellFormed(s, 0, replacement);
    ReplacedKeepsText(r, 0, again);
    assert r[0..] == r;
  }

  // ----- piece by piece -----

  /** One well-formed sequence. */
  ghost predicate GoodPiece(s: seq<Octet>, a: nat, b: nat) {
    a < b <= |s| && Checked(s, a).Good? && Checked(s, a).next == b
  }

  /** An octet where no sequence starts, alone; or an octet that starts one that does not decode, and all the trail octets
    * after it. */
  ghost predicate BadPiece(s: seq<Octet>, a: nat, b: nat) {
    && a < b <= |s| && Checked(s, a).Bad? && Checked(s, a).err != NotEnoughRoom
    && if Checked(s, a).err == InvalidLead then b == a + 1
       else (forall j :: a < j < b ==> IsTrail(s[j])) && (b < |s| ==> !IsTrail(s[b]))
  }

  /** The octets a to b of s give the octets from x to y of out. */
  ghost predicate PieceGives(s: seq<Octet>, a: nat, b: nat, out: seq<Octet>, x: nat, y: nat, replacement: bv32) {
    && x <= y <= |out|
    && ((GoodPiece(s, a, b) && out[x..y] == s[a..b]) || (BadPiece(s, a, b) && IsCodePointValid(replacement) && out[x..y] == Encode(replacement)))
  }

  /** From `it` on s is cut into pieces, and out from o on into what they give, in order. */
  ghost predicate InPieces(s: seq<Octet>, it: nat, out: seq<Octet>, o: nat, replacement: bv32, cuts: seq<nat>, ends: seq<nat>) {
    && |cuts| == |ends| > 0 && cuts[0] == it && cuts[|cuts| - 1] == |s| && ends[0] == o && ends[|ends| - 1] == |out|
    && forall i :: 0 <= i < |cuts| - 1 ==> PieceGives(s, cuts[i], cuts[i + 1], out, ends[i], ends[i + 1], replacement)
  }

  lemma PiecesCons(s: seq<Octet>, it: nat, out: seq<Octet>, o: nat, replacement: bv32, next: nat, o': nat, cuts: seq<nat>, ends: seq<nat>)
    requires PieceGives(s, it, next, out, o, o', replacement) && InPieces(s, next, out, o', replacement, cuts, ends)
    ensures InPieces(s, it, out, o, replacement, [it] + cuts, [o] + ends)
  {
    hide PieceGives;
    var c, e := [it] + cuts, [o] + ends;
    forall i | 0 <= i < |c| - 1 ensures PieceGives(s, c[i], c[i + 1], out, e[i], e[i + 1], replacement) {
      if i > 0 {
        assert PieceGives(s, cuts[i - 1], cuts[i - 1 + 1], out, ends[i - 1], ends[i - 1 + 1], replacement);
      }
    }
  }

  lemma PiecesTail(s: seq<Octet>, it: nat, out: seq<Octet>, o: nat, replacement: bv32, cuts: seq<nat>, ends: seq<nat>)
    requires InPieces(s, it, out, o, replacement, cuts, ends) && |cuts| > 1
    ensures PieceGives(s, it, cuts[1], out, o, ends[1], replacement)
    ensures InPieces(s, cuts[1], out, ends[1], replacement, cuts[1..], ends[1..])
  {
    hide PieceGives;
    assert PieceGives(s, cuts[0], cuts[0 + 1], out, ends[0], ends[0 + 1], replacement);
    forall i | 0 <= i < |cuts| - 2
      ensures PieceGives(s, cuts[1..][i], cuts[1..][i + 1], out, ends[1..][i], ends[1..][i + 1], replacement)
    {
      assert PieceGives(s, cuts[i + 1], cuts[i + 1 + 1], out, ends[i + 1], ends[i + 1 + 1], replacement);
    }
  }

  lemma {:induction false} SkippedExactly(s: seq<Octet>, it: nat, b: nat)
    requires it <= b <= |s| && (forall j :: it <= j < b ==> IsTrail(s[j])) && (b < |s| ==> !IsTrail(s[b]))
    ensures SkipTrails(s, it) == b
    decreases b - it
  {
    hide IsTrail;
    if it < b { SkippedExactly(s, it + 1, b); }
  }

  lemma {:induction false} SkipStops(s: seq<Octet>, it: nat)
    requires it <= |s|
    ensures SkipTrails(s, it) < |s| ==> !IsTrail(s[SkipTrails(s, it)])
    decreases |s| - it
  {
    hide IsTrail;
    if it < |s| && IsTrail(s[it]) { SkipStops(s, it + 1); }
  }

  /** The first piece, and what comes of it. */
  lemma FirstPiece(s: seq<Octet>, it: nat, replacement: bv32) returns (next: nat, first: seq<Octet>)
    requires it < |s| && Replaced(s, it, replacement).Returns?
    ensures it < next <= |s| && Replaced(s, it, replacement) == Prepend(first, Replaced(s, next, replacement))
    ensures (GoodPiece(s, it, next) && first == s[it..next]) || (BadPiece(s, it, next) && IsCodePointValid(replacement) && first == Encode(replacement))
  {
    hide Checked, IsTrail, Encode, IsCodePointValid;
    if Checked(s, it).Good? {
      NextWithin(s, it);
      next := Checked(s, it).next;
      first := s[it..next];
    } else {
      next := if Checked(s, it).err == InvalidLead then it + 1 else SkipTrails(s, it + 1);
      first := Encode(replacement);
      SkippedAreTrails(s, it + 1);
      SkipStops(s, it + 1);
    }
  }

  /** Whenever it returns, the input is cut into pieces: sequences, which are copied, and bad pieces, each of which gives
    * one replacement. */
  lemma {:induction false} ReplacedInPieces(s: seq<Octet>, it: nat, out: seq<Octet>, o: nat, replacement: bv32) returns (cuts: seq<nat>, ends: seq<nat>)
    requires it <= |s| && o <= |out| && Replaced(s, it, replacement) == Returns(out[o..])
    ensures InPieces(s, it, out, o, replacement, cuts, ends)
    decreases |s| - it
  {
    if it == |s| {
      cuts, ends := [it], [o];
    } else {
      var next, first := FirstPiece(s, it, replacement);
      hide Replaced, GoodPiece, BadPiece, IsCodePointValid, Encode, InPieces;
      var rest := Replaced(s, next, replacement).value;
      var o' := o + |first|;
      assert out[o..] == first + rest && |out[o..]| == |first| + |rest|;
      assert o' <= |out|;
      assert out[o..o'] == out[o..][..|first|] == first && out[o'..] == out[o..][|first|..] == rest;
      cuts, ends := ReplacedInPieces(s, next, out, o', replacement);
      PiecesCons(s, it, out, o, replacement, next, o', cuts, ends);
      cuts, ends := [it] + cuts, [o] + ends;
    }
  }

  lemma PieceIsFirst(s: seq<Octet>, it: nat, next: nat, replacement: bv32, first: seq<Octet>)
    requires (GoodPiece(s, it, next) && first == s[it..next]) || (BadPiece(s, it, next) && IsCodePointValid(replacement) && first == Encode(replacement))
    ensures it < next <= |s| && Replaced(s, it, replacement) == Prepend(first, Replaced(s, next, replacement))
  {
    hide Checked, IsTrail, Encode, IsCodePointValid;
    if BadPiece(s, it, next) && Checked(s, it).err != InvalidLead { SkippedExactly(s, it + 1, next); }
  }

  /** ... and there is only one way to do so: whatever is put together like that is what it returns. */
  lemma {:induction false} PiecesDetermine(s: seq<Octet>, it: nat, out: seq<Octet>, o: nat, replacement: bv32, cuts: seq<nat>, ends: seq<nat>)
    requires it <= |s| && o <= |out| && InPieces(s, it, out, o, replacement, cuts, ends)
    ensures Replaced(s, it, replacement) == Returns(out[o..])
    decreases |cuts|
  {
    if |cuts| == 1 {
      assert out[o..] == [];
    } else {
      PiecesTail(s, it, out, o, replacement, cuts, ends);
      var next, o' := cuts[1], ends[1];
      PieceIsFirst(s, it, next, replacement, out[o..o']);
      hide Replaced, GoodPiece, BadPiece, IsCodePointValid, Encode, InPieces;
      PiecesDetermine(s, next, out, o', replacement, cuts[1..], ends[1..]);
      assert out[o..] == out[o..o'] + out[o'..];
    }
  }

  // ----- when replace_invalid returns -----

  ghost predicate CutAt(s: seq<Octet>, p: nat) {
    p < |s| && Checked(s, p) == Bad(NotEnoughRoom)
  }

  /** A sequence at or after `it` is cut short by the end. */
  ghost predicate Truncated(s: seq<Octet>, it: nat) {
    exists p: nat :: it <= p && CutAt(s, p)
  }

  /** ... and all before it is well-formed. */
  ghost predicate OnlyTruncated(s: seq<Octet>, it: nat) {
    exists p: nat :: it <= p && CutAt(s, p) && Chars(s, it, p)
  }

  lemma CutAtLead(s: seq<Octet>, p: nat)
    requires CutAt(s, p)
    ensures !IsTrail(s[p])
  {
    hide IsTrail, Trails, Code;
    if SequenceLength(s[p]) > 0 { LeadIsNoTrail(s[p]); }
  }

  /** Octets that are passed over are trail octets: no sequence that is cut short starts there. */
  lemma StillTruncated(s: seq<Octet>, it: nat, next: nat)
    requires it < next <= |s| && !CutAt(s, it) && forall j :: it < j < next ==> IsTrail(s[j])
    ensures Truncated(s, it) <==> Truncated(s, next)
  {
    hide CutAt, IsTrail;
    forall p: nat | it <= p && CutAt(s, p) ensures next <= p {
      assert p < |s| by { CutWithin(s, p); }
      CutAtLead(s, p);
    }
  }

  lemma CutWithin(s: seq<Octet>, p: nat)
    requires CutAt(s, p)
    ensures p < |s|
  {}

  lemma {:induction false} SkippedAreTrails(s: seq<Octet>, it: nat)
    requires it <= |s|
    ensures forall j :: it <= j < SkipTrails(s, it) ==> IsTrail(s[j])
    decreases |s| - it
  {
    hide IsTrail;
    if it < |s| && IsTrail(s[it]) { SkippedAreTrails(s, it + 1); }
  }

  lemma StillOnlyTruncated(s: seq<Octet>, it: nat)
    requires it < |s| && Checked(s, it).Good?
    ensures OnlyTruncated(s, it) <==> OnlyTruncated(s, Checked(s, it).next)
  {
    var next := Checked(s, it).next;
    NextWithin(s, it);
    hide Checked, CutAt;
    forall p: nat | it <= p && CutAt(s, p) && Chars(s, it, p) ensures next <= p && Chars(s, next, p) {
      assert p != it by { GoodIsNotCut(s, it); }
    }
  }

  lemma GoodIsNotCut(s: seq<Octet>, it: nat)
    requires it < |s| && Checked(s, it).Good?
    ensures !CutAt(s, it)
  {
    hide Checked;
  }

  lemma BadStarts(s: seq<Octet>, it: nat)
    requires it < |s| && Checked(s, it).Bad?
    ensures !Chars(s, it, |s|)
    ensures OnlyTruncated(s, it) <==> CutAt(s, it)
  {
    hide Checked;
    if CutAt(s, it) { assert Chars(s, it, it); }
  }

  /** It returns exactly if no sequence is cut short by the end, and nothing needs replacing or the replacement is valid.  It
    * throws not_enough_room exactly if one is, and nothing before it needs replacing or the replacement is valid.  */
  lemma {:induction false} ReturnsExactly(s: seq<Octet>, it: nat, replacement: bv32)
    requires it <= |s|
    ensures Replaced(s, it, replacement).Returns? <==> !Truncated(s, it) && (Chars(s, it, |s|) || IsCodePointValid(replacement))
    ensures Replaced(s, it, replacement) == Throws(OutOfRoom) <==>
      if IsCodePointValid(replacement) then Truncated(s, it) else OnlyTruncated(s, it)
    ensures Replaced(s, it, replacement).Throws? ==> Replaced(s, it, replacement).ex in {OutOfRoom, BadCodePoint(replacement)}
    decreases |s| - it
  {
    hide Checked, IsCodePointValid, IsTrail, Encode, Truncated, OnlyTruncated, Chars, CutAt;
    if it == |s| {
      NothingCut(s);
    } else {
      match Checked(s, it)
      case Good(_, next) =>
        NextWithin(s, it);
        SequenceOctets(s, it);
        GoodIsNotCut(s, it);
        StillTruncated(s, it, next);
        StillOnlyTruncated(s, it);
        CharsUnfold(s, it);
        ReturnsExactly(s, next, replacement);
      case Bad(err) =>
        BadStarts(s, it);
        CutMeans(s, it);
        if err == NotEnoughRoom {
          assert Truncated(s, it) by { CutIsTruncated(s, it); }
        } else if IsCodePointValid(replacement) {
          var next := if err == InvalidLead then it + 1 else SkipTrails(s, it + 1);
          SkippedAreTrails(s, it + 1);
          StillTruncated(s, it, next);
          ReturnsExactly(s, next, replacement);
        }
    }
  }

  lemma CutMeans(s: seq<Octet>, it: nat)
    requires it < |s|
    ensures CutAt(s, it) <==> Checked(s, it) == Bad(NotEnoughRoom)
  {
    hide Checked;
  }

  lemma CutIsTruncated(s: seq<Octet>, it: nat)
    requires CutAt(s, it)
    ensures Truncated(s, it)
  {
    hide CutAt;
  }

  lemma NothingCut(s: seq<Octet>)
    ensures !Truncated(s, |s|) && !OnlyTruncated(s, |s|) && Chars(s, |s|, |s|)
  {
    hide Checked;
  }

  lemma CharsUnfold(s: seq<Octet>, it: nat)
    requires it < |s| && Checked(s, it).Good? && Checked(s, it).next <= |s|
    ensures Chars(s, it, |s|) <==> Chars(s, Checked(s, it).next, |s|)
  {
    hide Checked;
  }

  // ----- prior -----

  /** The octets of a sequence after its lead are trail octets, and the lead is not. */
  lemma SequenceOctets(s: seq<Octet>, p: nat)
    requires p < |s| && Checked(s, p).Good?
    ensures !IsTrail(s[p]) && p < Checked(s, p).next <= |s| && forall j :: p < j < Checked(s, p).next ==> IsTrail(s[j])
  {
    LeadIsNoTrail(s[p]);
    hide IsTrail;
  }

  lemma LeadIsNoTrail(a: Octet)
    requires SequenceLength(a) > 0
    ensures !IsTrail(a)
  {}

  /** The octet at it' is the last one before `it` that is not a trail octet. */
  ghost predicate LastLead(s: seq<Octet>, start: nat, it: nat, it': nat) {
    start <= it' < it <= |s| && !IsTrail(s[it']) && forall j :: it' < j < it ==> IsTrail(s[j])
  }

  /** prior: it goes back to the last octet that is not a trail octet, and decodes what is from there to where it was. */
  method Prior(s: seq<Octet>, it: nat, start: nat) returns (r: Result<bv32>, it': nat)
    requires start <= it <= |s|
    ensures it == start ==> it' == it && r == Throws(OutOfRoom)
    ensures it > start && (forall j :: start <= j < it ==> IsTrail(s[j])) ==> it' == start && r == Throws(BadUtf8(s[start]))
    ensures it > start && (exists j :: start <= j < it && !IsTrail(s[j])) ==> LastLead(s, start, it, it') && r == Peeked(s[..it], it')
  {
    hide Checked, IsTrail, Peeked;
    if it == start {
      return Throws(OutOfRoom), it;
    }
    it' := it - 1;
    while IsTrail(s[it'])
      invariant start <= it' < it && forall j :: it' < j < it ==> IsTrail(s[j])
      decreases it'
    {
      if it' == start {
        return Throws(BadUtf8(s[it'])), it';
      }
      it' := it' - 1;
    }
    var ignored;
    r, ignored := Next(s[..it], it');
  }

  /** prior undoes next: where a well-formed sequence ends, that is where it goes back to, and what it decodes. */
  lemma PriorUndoesNext(s: seq<Octet>, start: nat, it: nat, it': nat, p: nat)
    requires start <= p < it <= |s| && Checked(s, p).Good? && Checked(s, p).next == it && LastLead(s, start, it, it')
    ensures it' == p && Peeked(s[..it], it') == Returns(Checked(s, p).cp)
  {
    hide *;
    SequenceOctets(s, p);
    BackTo(s, start, it, it', p);
    GoodInSlice(s, 0, it, p);
    assert s[0..it] == s[..it];
    PeekedGood(s[..it], p);
  }

  lemma BackTo(s: seq<Octet>, start: nat, it: nat, it': nat, p: nat)
    requires start <= p < it <= |s| && !IsTrail(s[p]) && (forall j :: p < j < it ==> IsTrail(s[j])) && LastLead(s, start, it, it')
    ensures it' == p
  {
    hide IsTrail;
  }

  lemma PeekedGood(s: seq<Octet>, it: nat)
    requires it < |s| && Checked(s, it).Good?
    ensures Peeked(s, it) == Returns(Checked(s, it).cp)
  {
    hide Checked;
  }
}
