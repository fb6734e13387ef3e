/** Encoding and decoding UTF-8 text (utf8/checked.h, utf8/unchecked.h). */
module Utf8 {
  import opened Utf8Core

  /** not_enough_room, invalid_utf8, invalid_code_point, invalid_utf16 */
  datatype Exception = OutOfRoom | BadUtf8(octet: Octet) | BadCodePoint(cp: bv32) | BadUtf16(word: bv16)

  datatype Result<T> = Returns(value: T) | Throws(ex: Exception)

  function Low8(x: bv32): Octet { (x & 0xff) as bv8 }

  function Enc2(cp: bv32): seq<Octet> { [Low8((cp >> 6) | 0xc0), Low8((cp & 0x3f) | 0x80)] }

  function Enc3(cp: bv32): seq<Octet> {
    [Low8((cp >> 12) | 0xe0), Low8(((cp >> 6) & 0x3f) | 0x80), Low8((cp & 0x3f) | 0x80)]
  }

  function Enc4(cp: bv32): seq<Octet> {
    [Low8((cp >> 18) | 0xf0), Low8(((cp >> 12) & 0x3f) | 0x80), Low8(((cp >> 6) & 0x3f) | 0x80), Low8((cp & 0x3f) | 0x80)]
  }

  /** The octets that append writes. */
  function Encode(cp: bv32): (r: seq<Octet>)
    ensures 1 <= |r| <= 4
  {
    if cp < 0x80 then [Low8(cp)] else if cp < 0x800 then Enc2(cp) else if cp < 0x10000 then Enc3(cp) else Enc4(cp)
  }

  /** append */
  method Append(cp: bv32, out: seq<Octet>) returns (r: Result<seq<Octet>>)
    ensures r == if IsCodePointValid(cp) then Returns(out + Encode(cp)) else Throws(BadCodePoint(cp))
  {
    hide Low8, IsCodePointValid;
    if !IsCodePointValid(cp) { return Throws(BadCodePoint(cp)); }
    var result := out;
    if cp < 0x80 {
      result := result + [Low8(cp)];
    } else if cp < 0x800 {
      result := result + [Low8((cp >> 6) | 0xc0)];
      result := result + [Low8((cp & 0x3f) | 0x80)];
      assert result == out + Enc2(cp);
    } else if cp < 0x10000 {
      result := result + [Low8((cp >> 12) | 0xe0)];
      result := result + [Low8(((cp >> 6) & 0x3f) | 0x80)];
      result := result + [Low8((cp & 0x3f) | 0x80)];
      assert result == out + Enc3(cp);
    } else {
      result := result + [Low8((cp >> 18) | 0xf0)];
      result := result + [Low8(((cp >> 12) & 0x3f) | 0x80)];
      result := result + [Low8(((cp >> 6) & 0x3f) | 0x80)];
      result := result + [Low8((cp & 0x3f) | 0x80)];
      assert result == out + Enc4(cp);
    }
    return Returns(result);
  }

  /** What next throws for an error at an octet.  After an error validate_next has not set the code point: it is still 0. */
  function Thrown(err: Utf8Error, octet: Octet): Exception {
    match err
    case NotEnoughRoom => OutOfRoom
    case InvalidCodePoint => BadCodePoint(0)
    case _ => BadUtf8(octet)
  }

  /** peek_next */
  function Peeked(s: seq<Octet>, it: nat): Result<bv32>
    requires it < |s|
  {
    match Checked(s, it)
    case Good(cp, _) => Returns(cp)
    case Bad(err) => Throws(Thrown(err, s[it]))
  }

  /** next */
  method Next(s: seq<Octet>, it: nat) returns (r: Result<bv32>, it': nat)
    requires it < |s|
    ensures r == Peeked(s, it) && it' == if Checked(s, it).Good? then Checked(s, it).next else it
  {
    hide Checked;
    var err, cp;
    err, it', cp := ValidateNext(s, it);
    r := if err == Utf8Ok then Returns(cp) else Throws(Thrown(err, s[it']));
  }

  // ----- one code point there and back -----

  lemma Codes1(cp: bv32, a: Octet)
    ensures cp < 0x80 ==> SequenceLength(Low8(cp)) == 1 && Low8(cp) as bv32 == cp && CodeOk(cp, 1)
    ensures a < 0x80 ==> Encode(a as bv32) == [a] && IsCodePointValid(a as bv32)
  {}

  lemma Codes2(cp: bv32, a: Octet, b: Octet)
    requires 0x80 <= cp < 0x800 && a == Low8((cp >> 6) | 0xc0) && b == Low8((cp & 0x3f) | 0x80)
    ensures SequenceLength(a) == 2 && IsTrail(b) && Code2(a, b) == cp && CodeOk(cp, 2)
  {}

  lemma Codes3(cp: bv32, a: Octet, b: Octet, c: Octet)
    requires 0x800 <= cp < 0x10000 && !IsSurrogate(cp)
    requires a == Low8((cp >> 12) | 0xe0) && b == Low8(((cp >> 6) & 0x3f) | 0x80) && c == Low8((cp & 0x3f) | 0x80)
    ensures SequenceLength(a) == 3 && IsTrail(b) && IsTrail(c) && Code3(a, b, c) == cp && CodeOk(cp, 3)
  {}

  lemma Codes4(cp: bv32, a: Octet, b: Octet, c: Octet, d: Octet)
    requires 0x10000 <= cp <= CODE_POINT_MAX && a == Low8((cp >> 18) | 0xf0)
    requires b == Low8(((cp >> 12) & 0x3f) | 0x80) && c == Low8(((cp >> 6) & 0x3f) | 0x80) && d == Low8((cp & 0x3f) | 0x80)
    ensures SequenceLength(a) == 4 && IsTrail(b) && IsTrail(c) && IsTrail(d) && Code4(a, b, c, d) == cp && CodeOk(cp, 4)
  {
    hide First4, LastButTwo, LastButOne, Last, Low8, IsTrail, SequenceLength, CodeOk, Plus, Part1, Part2, Part3, Part4;
    FirstOf4(cp, a);
    SecondOf4(cp, b);
    ThirdOf4(cp, c);
    FourthOf4(cp, d);
    FourParts(cp);
    LongCode(cp);
  }

  /** The bits of a code point that each of 4 octets holds. */
  function Part1(cp: bv32): bv32 { cp & 0x1c0000 }

  function Part2(cp: bv32): bv32 { cp & 0x3f000 }

  function Part3(cp: bv32): bv32 { cp & 0xfc0 }

  function Part4(cp: bv32): bv32 { cp & 0x3f }

  lemma FirstOf4(cp: bv32, a: Octet)
    requires 0x10000 <= cp <= CODE_POINT_MAX && a == Low8((cp >> 18) | 0xf0)
    ensures SequenceLength(a) == 4 && First4(a as bv32) == Part1(cp)
  {}

  lemma SecondOf4(cp: bv32, b: Octet)
    requires b == Low8(((cp >> 12) & 0x3f) | 0x80)
    ensures IsTrail(b) && LastButTwo(b) == Part2(cp)
  {}

  lemma ThirdOf4(cp: bv32, c: Octet)
    requires c == Low8(((cp >> 6) & 0x3f) | 0x80)
    ensures IsTrail(c) && LastButOne(c) == Part3(cp)
  {}

  lemma FourthOf4(cp: bv32, d: Octet)
    requires d == Low8((cp & 0x3f) | 0x80)
    ensures IsTrail(d) && Last(d) == Part4(cp)
  {}

  lemma FourParts(cp: bv32)
    requires cp <= CODE_POINT_MAX
    ensures Plus(Plus(Plus(Part1(cp), Part2(cp)), Part3(cp)), Part4(cp)) == cp
  {}

  lemma LongCode(cp: bv32)
    requires 0x10000 <= cp <= CODE_POINT_MAX
    ensures CodeOk(cp, 4)
  {}

  lemma Octets2(a: Octet, b: Octet)
    requires SequenceLength(a) == 2 && IsTrail(b) && CodeOk(Code2(a, b), 2)
    ensures Encode(Code2(a, b)) == [a, b] && IsCodePointValid(Code2(a, b))
  {}

  lemma Octets3(a: Octet, b: Octet, c: Octet)
    requires SequenceLength(a) == 3 && IsTrail(b) && IsTrail(c) && CodeOk(Code3(a, b, c), 3)
    ensures Encode(Code3(a, b, c)) == [a, b, c] && IsCodePointValid(Code3(a, b, c))
  {
    Bits3(a, b, c, Code3(a, b, c));
    hide Code3, SequenceLength, IsTrail, IsCodePointValid, IsOverlongSequence;
  }

  lemma Bits3(a: Octet, b: Octet, c: Octet, cp: bv32)
    requires SequenceLength(a) == 3 && IsTrail(b) && IsTrail(c) && CodeOk(cp, 3) && cp == Code3(a, b, c)
    ensures 0x800 <= cp < 0x10000 && Low8((cp >> 12) | 0xe0) == a && Low8(((cp >> 6) & 0x3f) | 0x80) == b && Low8((cp & 0x3f) | 0x80) == c
  {}

  lemma Octets4(a: Octet, b: Octet, c: Octet, d: Octet, cp: bv32)
    requires SequenceLength(a) == 4 && IsTrail(b) && IsTrail(c) && IsTrail(d) && CodeOk(cp, 4) && cp == Code4(a, b, c, d)
    ensures Encode(cp) == [a, b, c, d] && IsCodePointValid(cp)
  {
    Bits4(a, b, c, d, cp);
    Written4(a, b, c, d, cp);
    hide *;
  }

  lemma Bits4(a: Octet, b: Octet, c: Octet, d: Octet, cp: bv32)
    requires SequenceLength(a) == 4 && IsTrail(b) && IsTrail(c) && IsTrail(d) && CodeOk(cp, 4) && cp == Code4(a, b, c, d)
    ensures 0x10000 <= cp && Low8((cp >> 18) | 0xf0) == a && Low8(((cp >> 12) & 0x3f) | 0x80) == b
    ensures Low8(((cp >> 6) & 0x3f) | 0x80) == c && Low8((cp & 0x3f) | 0x80) == d
  {}

  lemma Written4(a: Octet, b: Octet, c: Octet, d: Octet, cp: bv32)
    requires 0x10000 <= cp && CodeOk(cp, 4) && Low8((cp >> 18) | 0xf0) == a && Low8(((cp >> 12) & 0x3f) | 0x80) == b
    requires Low8(((cp >> 6) & 0x3f) | 0x80) == c && Low8((cp & 0x3f) | 0x80) == d
    ensures Encode(cp) == [a, b, c, d] && IsCodePointValid(cp)
  {
    hide Low8, IsCodePointValid, IsOverlongSequence;
  }

  /** next undoes append. */
  lemma DecodesEncoded(cp: bv32, s: seq<Octet>, it: nat)
    requires IsCodePointValid(cp) && it + |Encode(cp)| <= |s| && s[it..it + |Encode(cp)|] == Encode(cp)
    ensures it < |s| && Checked(s, it) == Good(cp, it + |Encode(cp)|)
  {
    hide Low8, SequenceLength, IsTrail, Code2, Code3, Code4, Checked, Trails, CodeOk, IsOverlongSequence;
    var n := |Encode(cp)|;
    var e := s[it..it + n];
    assert forall k :: 0 <= k < n ==> e[k] == s[it + k];
    assert e == Encode(cp);
    TrailsUnfold(s, it);
    if n == 1 {
      Codes1(cp, 0);
    } else if n == 2 {
      Codes2(cp, e[0], e[1]);
    } else if n == 3 {
      Codes3(cp, e[0], e[1], e[2]);
    } else {
      Codes4(cp, e[0], e[1], e[2], e[3]);
    }
    CheckedGood(s, it, n);
  }

  lemma CheckedGood(s: seq<Octet>, it: nat, n: nat)
    requires 1 <= n <= 4 && it + n <= |s| && SequenceLength(s[it]) == n && Trails(s, it, n) == Utf8Ok && CodeOk(Code(s, it, n), n)
    ensures Checked(s, it) == Good(Code(s, it, n), it + n)
  {
    hide IsTrail, SequenceLength, IsCodePointValid, IsOverlongSequence, Code, Trails;
  }

  /** append undoes next. */
  lemma EncodesDecoded(s: seq<Octet>, it: nat)
    requires it < |s| && Checked(s, it).Good?
    ensures IsCodePointValid(Checked(s, it).cp) && s[it..Checked(s, it).next] == Encode(Checked(s, it).cp)
  {
    hide Encode, SequenceLength, IsTrail, Code2, Code3, Code4, IsCodePointValid, IsOverlongSequence, Trails;
    var n := SequenceLength(s[it]);
    TrailsUnfold(s, it);
    if n == 1 {
      Grammar1(s[it]);
      Codes1(0, s[it]);
      assert s[it..it + 1] == [s[it]];
    } else if n == 2 {
      Octets2(s[it], s[it + 1]);
      assert s[it..it + 2] == [s[it], s[it + 1]];
    } else if n == 3 {
      Octets3(s[it], s[it + 1], s[it + 2]);
      assert s[it..it + 3] == [s[it], s[it + 1], s[it + 2]];
    } else {
      Octets4(s[it], s[it + 1], s[it + 2], s[it + 3], Checked(s, it).cp);
      assert s[it..it + 4] == [s[it], s[it + 1], s[it + 2], s[it + 3]];
    }
  }

  // ----- texts -----

  /** From a on, well-formed sequences up to b. */
  ghost predicate Chars(s: seq<Octet>, a: nat, b: nat)
    requires b <= |s|
    decreases b - a
  {
    a == b || (a < b && Checked(s, a).Good? && Checked(s, a).next <= b && Chars(s, Checked(s, a).next, b))
  }

  ghost predicate WellFormed(s: seq<Octet>) {
    Chars(s, 0, |s|)
  }

  ghost function CodePoints(s: seq<Octet>, a: nat): seq<bv32>
    requires a <= |s| && Chars(s, a, |s|)
    decreases |s| - a
  {
    if a == |s| then [] else [Checked(s, a).cp] + CodePoints(s, Checked(s, a).next)
  }

  ghost function Encoded(cps: seq<bv32>): seq<Octet> {
    if |cps| == 0 then [] else Encode(cps[0]) + Encoded(cps[1..])
  }

  ghost predicate AllValid(cps: seq<bv32>) {
    forall k :: 0 <= k < |cps| ==> IsCodePointValid(cps[k])
  }

  /** The code points of a well-formed text encode to the text. */
  lemma {:induction false} TextIsEncoded(s: seq<Octet>, a: nat)
    requires a <= |s| && Chars(s, a, |s|)
    ensures AllValid(CodePoints(s, a)) && Encoded(CodePoints(s, a)) == s[a..]
    decreases |s| - a
  {
    hide Checked, Encode, IsCodePointValid;
    if a < |s| {
      EncodesDecoded(s, a);
      var next := Checked(s, a).next;
      TextIsEncoded(s, next);
      assert s[a..] == s[a..next] + s[next..];
      var rest := CodePoints(s, next);
      assert ([Checked(s, a).cp] + rest)[1..] == rest;
    }
  }

  /** What valid code points encode to is a well-formed text of those code points. */
  lemma {:induction false} EncodedIsText(cps: seq<bv32>, before: seq<Octet>)
    requires AllValid(cps)
    ensures var s := before + Encoded(cps); Chars(s, |before|, |s|) && CodePoints(s, |before|) == cps
    decreases |cps|
  {
    hide Checked, Encode, IsCodePointValid;
    var s := before + Encoded(cps);
    if |cps| > 0 {
      var e := Encode(cps[0]);
      assert s == (before + e) + Encoded(cps[1..]);
      assert s[|before|..|before| + |e|] == e;
      DecodesEncoded(cps[0], s, |before|);
      EncodedIsText(cps[1..], before + e);
      assert cps == [cps[0]] + cps[1..];
    }
  }

  /** Sequences do not look beyond their end. */
  lemma GoodInSlice(s: seq<Octet>, a: nat, b: nat, it: nat)
    requires a <= it < b <= |s| && Checked(s, it).Good? && Checked(s, it).next <= b
    ensures Checked(s[a..b], it - a) == Good(Checked(s, it).cp, Checked(s, it).next - a)
  {
    hide Checked, IsUtf8Char;
    NextWithin(s, it);
    var t, n := s[a..b], Checked(s, it).next - it;
    SliceOfSlice(s, a, b, it, it + n);
    DecodesExactlyGrammar(t, it - a, n);
    DecodesExactlyGrammar(s, it, n);
    SameCode(s, t, a, it, n);
  }

  lemma GoodFromSlice(s: seq<Octet>, a: nat, b: nat, it: nat)
    requires a <= it < b <= |s| && Checked(s[a..b], it - a).Good?
    ensures Checked(s, it) == Good(Checked(s[a..b], it - a).cp, Checked(s[a..b], it - a).next + a)
  {
    hide Checked, IsUtf8Char;
    var t := s[a..b];
    var n := Checked(t, it - a).next - (it - a);
    assert Checked(t, it - a).next <= |t| by { NextWithin(t, it - a); }
    SliceOfSlice(s, a, b, it, it + n);
    DecodesExactlyGrammar(t, it - a, n);
    DecodesExactlyGrammar(s, it, n);
    SameCode(s, t, a, it, n);
  }

  lemma SliceOfSlice(s: seq<Octet>, a: nat, b: nat, i: nat, j: nat)
    requires a <= i <= j <= b <= |s|
    ensures s[a..b][i - a..j - a] == s[i..j]
  {
    var t := s[a..b];
    forall k | 0 <= k < j - i ensures t[i - a..j - a][k] == s[i..j][k] {
      assert t[i - a + k] == s[i + k];
    }
  }

  lemma NextWithin(s: seq<Octet>, it: nat)
    requires it < |s| && Checked(s, it).Good?
    ensures it < Checked(s, it).next <= |s|
  {}

  lemma SameCode(s: seq<Octet>, t: seq<Octet>, a: nat, it: nat, n: nat)
    requires a <= it && it - a + n <= |t| && it + n <= |s| && it < |s| && it - a < |t| && s[it..it + n] == t[it - a..it - a + n]
    requires Checked(s, it).Good? && Checked(s, it).next == it + n && Checked(t, it - a).Good? && Checked(t, it - a).next == it - a + n
    ensures Checked(s, it).cp == Checked(t, it - a).cp
  {
    EncodesDecoded(s, it);
    EncodesDecoded(t, it - a);
    DecodesEncoded(Checked(t, it - a).cp, s, it);
    hide Checked, Encode;
  }
}
