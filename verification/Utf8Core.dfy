/** Decoding one UTF-8 sequence (utf8/core.h), and the grammar of section 4 of RFC 3629. */
module Utf8Core {
  type Octet = bv8

  const LEAD_SURROGATE_MIN: bv32 := 0xd800
  const LEAD_SURROGATE_MAX: bv32 := 0xdbff
  const TRAIL_SURROGATE_MIN: bv32 := 0xdc00
  const TRAIL_SURROGATE_MAX: bv32 := 0xdfff
  const CODE_POINT_MAX: bv32 := 0x10ffff

  datatype Utf8Error = Utf8Ok | NotEnoughRoom | InvalidLead | IncompleteSequence | OverlongSequence | InvalidCodePoint

  predicate IsTrail(oc: Octet) { oc >> 6 == 0x2 }

  predicate IsSurrogate(cp: bv32) { LEAD_SURROGATE_MIN <= cp <= TRAIL_SURROGATE_MAX }

  predicate IsCodePointValid(cp: bv32) { cp <= CODE_POINT_MAX && !IsSurrogate(cp) }

  function SequenceLength(lead: Octet): (n: nat)
    ensures n <= 4
  {
    if lead < 0x80 then 1
    else if lead >> 5 == 0x6 then 2
    else if lead >> 4 == 0xe then 3
    else if lead >> 3 == 0x1e then 4
    else 0
  }

  predicate IsOverlongSequence(cp: bv32, length: nat) {
    if cp < 0x80 then length != 1 else if cp < 0x800 then length != 2 else cp < 0x10000 && length != 3
  }

  /** What an octet contributes: the first of 2, 3 or 4, and those after it, last to first. */
  function First2(a: bv32): bv32 { (a << 6) & 0x7ff }

  function First3(a: bv32): bv32 { (a << 12) & 0xffff }

  function First4(a: bv32): bv32 { (a << 18) & 0x1fffff }

  function Last(b: Octet): bv32 { (b as bv32) & 0x3f }

  function LastButOne(b: Octet): bv32 { ((b as bv32) << 6) & 0xfff }

  function LastButTwo(b: Octet): bv32 { ((b as bv32) << 12) & 0x3ffff }

  function Plus(x: bv32, y: bv32): bv32 { x + y }

  /** The code point of a sequence of 2, 3 or 4 octets, as the program computes it. */
  function Code2(a: Octet, b: Octet): bv32 { Plus(First2(a as bv32), Last(b)) }

  function Code3(a: Octet, b: Octet, c: Octet): bv32 { Plus(Plus(First3(a as bv32), LastButOne(b)), Last(c)) }

  function Code4(a: Octet, b: Octet, c: Octet, d: Octet): bv32 {
    Plus(Plus(Plus(First4(a as bv32), LastButTwo(b)), LastButOne(c)), Last(d))
  }

  function Code(s: seq<Octet>, it: nat, n: nat): bv32
    requires 1 <= n <= 4 && it + n <= |s|
  {
    if n == 1 then s[it] as bv32
    else if n == 2 then Code2(s[it], s[it + 1])
    else if n == 3 then Code3(s[it], s[it + 1], s[it + 2])
    else Code4(s[it], s[it + 1], s[it + 2], s[it + 3])
  }

  datatype Step = Good(cp: bv32, next: nat) | Bad(err: Utf8Error)

  /** The first of the octets after a lead that is missing or is not a trail octet. */
  function Trails(s: seq<Octet>, it: nat, n: nat): (err: Utf8Error)
    requires it < |s|
    ensures err == Utf8Ok <==> it + n <= |s| && forall j :: it < j < it + n ==> IsTrail(s[j])
    decreases n
  {
    if n <= 1 then Utf8Ok else NextTrail(s, it, n, Trails(s, it, n - 1))
  }

  /** The octet at it + n - 1, after the ones before it. */
  function NextTrail(s: seq<Octet>, it: nat, n: nat, before: Utf8Error): Utf8Error
    requires 1 <= n
  {
    if before != Utf8Ok then before
    else if it + n > |s| then NotEnoughRoom else if !IsTrail(s[it + n - 1]) then IncompleteSequence else Utf8Ok
  }

  /** What decoding at `it` comes to. */
  function Checked(s: seq<Octet>, it: nat): (r: Step)
    requires it < |s|
    ensures r.Good? ==> it < r.next <= |s|
  {
    var n := SequenceLength(s[it]);
    if n == 0 then Bad(InvalidLead) else
    var err := Trails(s, it, n);
    if err != Utf8Ok then Bad(err) else
    var cp := Code(s, it, n);
    if !IsCodePointValid(cp) then Bad(InvalidCodePoint)
    else if IsOverlongSequence(cp, n) then Bad(OverlongSequence)
    else Good(cp, it + n)
  }

  // ----- the grammar -----

  predicate Tail(oc: Octet) { 0x80 <= oc <= 0xbf }

  /** UTF8-char = UTF8-1 / UTF8-2 / UTF8-3 / UTF8-4 */
  predicate IsUtf8Char(c: seq<Octet>) {
    || (|c| == 1 && c[0] <= 0x7f)
    || (|c| == 2 && 0xc2 <= c[0] <= 0xdf && Tail(c[1]))
    || (|c| == 3 && IsUtf8Char3(c[0], c[1], c[2]))
    || (|c| == 4 && IsUtf8Char4(c[0], c[1], c[2], c[3]))
  }

  predicate IsUtf8Char3(a: Octet, b: Octet, c: Octet) {
    || (a == 0xe0 && 0xa0 <= b <= 0xbf && Tail(c))
    || (0xe1 <= a <= 0xec && Tail(b) && Tail(c))
    || (a == 0xed && 0x80 <= b <= 0x9f && Tail(c))
    || (0xee <= a <= 0xef && Tail(b) && Tail(c))
  }

  predicate IsUtf8Char4(a: Octet, b: Octet, c: Octet, d: Octet) {
    || (a == 0xf0 && 0x90 <= b <= 0xbf && Tail(c) && Tail(d))
    || (0xf1 <= a <= 0xf3 && Tail(b) && Tail(c) && Tail(d))
    || (a == 0xf4 && 0x80 <= b <= 0x8f && Tail(c) && Tail(d))
  }

  predicate CodeOk(cp: bv32, n: nat) { IsCodePointValid(cp) && !IsOverlongSequence(cp, n) }

  lemma Grammar1(a: Octet)
    ensures SequenceLength(a) == 1 <==> a <= 0x7f
    ensures SequenceLength(a) == 1 ==> CodeOk(a as bv32, 1)
  {}

  lemma Grammar2(a: Octet, b: Octet)
    ensures (SequenceLength(a) == 2 && IsTrail(b) && CodeOk(Code2(a, b), 2)) <==> (0xc2 <= a <= 0xdf && Tail(b))
  {}

  lemma Grammar3(a: Octet, b: Octet, c: Octet)
    ensures (SequenceLength(a) == 3 && IsTrail(b) && IsTrail(c) && CodeOk(Code3(a, b, c), 3)) <==> IsUtf8Char3(a, b, c)
  {}

  lemma Grammar4(a: Octet, b: Octet, c: Octet, d: Octet)
    ensures (SequenceLength(a) == 4 && IsTrail(b) && IsTrail(c) && IsTrail(d) && CodeOk(Code4(a, b, c, d), 4)) <==> IsUtf8Char4(a, b, c, d)
  {}

  /** A sequence decodes exactly if it is a UTF8-char of the grammar. */
  lemma DecodesExactlyGrammar(s: seq<Octet>, it: nat, n: nat)
    requires it < |s| && it + n <= |s|
    ensures (Checked(s, it).Good? && Checked(s, it).next == it + n) <==> IsUtf8Char(s[it..it + n])
  {
    hide IsTrail, SequenceLength, CodeOk, Code2, Code3, Code4, IsUtf8Char3, IsUtf8Char4, Tail, Checked, Trails;
    if 1 <= n <= 4 {
      var a := s[it];
      CheckedIs(s, it, n);
      TrailsUnfold(s, it);
      if n == 1 { Grammar1(a); }
      else if n == 2 { Grammar2(a, s[it + 1]); }
      else if n == 3 { Grammar3(a, s[it + 1], s[it + 2]); }
      else { Grammar4(a, s[it + 1], s[it + 2], s[it + 3]); }
    } else {
      NoOtherLength(s, it);
    }
  }

  lemma CheckedIs(s: seq<Octet>, it: nat, n: nat)
    requires it < |s| && it + n <= |s| && 1 <= n <= 4
    ensures (Checked(s, it).Good? && Checked(s, it).next == it + n) <==>
      SequenceLength(s[it]) == n && Trails(s, it, n) == Utf8Ok && CodeOk(Code(s, it, n), n)
  {
    hide IsTrail, SequenceLength, IsCodePointValid, IsOverlongSequence, Code, Trails;
  }

  lemma NoOtherLength(s: seq<Octet>, it: nat)
    requires it < |s|
    ensures Checked(s, it).Good? ==> it + 1 <= Checked(s, it).next <= it + 4
  {
    hide IsTrail, SequenceLength, IsCodePointValid, IsOverlongSequence, Code, Trails;
  }

  lemma TrailsUnfold(s: seq<Octet>, it: nat)
    requires it < |s|
    ensures Trails(s, it, 1) == Utf8Ok
    ensures Trails(s, it, 2) == Utf8Ok <==> it + 1 < |s| && IsTrail(s[it + 1])
    ensures Trails(s, it, 3) == Utf8Ok <==> it + 2 < |s| && IsTrail(s[it + 1]) && IsTrail(s[it + 2])
    ensures Trails(s, it, 4) == Utf8Ok <==> it + 3 < |s| && IsTrail(s[it + 1]) && IsTrail(s[it + 2]) && IsTrail(s[it + 3])
  {
    hide IsTrail;
  }

  // ----- decoding, step by step -----

  /** increase_safely */
  method IncreaseSafely(s: seq<Octet>, it: nat) returns (err: Utf8Error, it': nat)
    requires it < |s|
    ensures it' == it + 1
    ensures err == if it + 1 == |s| then NotEnoughRoom else if !IsTrail(s[it + 1]) then IncompleteSequence else Utf8Ok
  {
    it' := it + 1;
    if it' == |s| { return NotEnoughRoom, it'; }
    if !IsTrail(s[it']) { return IncompleteSequence, it'; }
    return Utf8Ok, it';
  }

  ghost predicate Decoded(s: seq<Octet>, it: nat, n: nat, err: Utf8Error, it': nat, cp: bv32)
    requires it < |s| && 1 <= n <= 4
  {
    err == Trails(s, it, n) && (err == Utf8Ok ==> it' == it + n - 1 && cp == Code(s, it, n))
  }

  method GetSequence2(s: seq<Octet>, it: nat) returns (err: Utf8Error, it': nat, cp: bv32)
    requires it < |s|
    ensures Decoded(s, it, 2, err, it', cp)
  {
    hide IsTrail, Trails, Decoded, Code, First2, First3, First4, Last, LastButOne, LastButTwo, Plus;
    TrailSteps(s, it);
    cp, it' := s[it] as bv32, it;
    err, it' := IncreaseSafely(s, it');
    if err != Utf8Ok { NotDecoded(s, it, 2, 2, err, it', cp); return; }
    cp := Plus(First2(cp), Last(s[it']));
    IsDecoded(s, it, 2, it', cp);
  }

  method GetSequence3(s: seq<Octet>, it: nat) returns (err: Utf8Error, it': nat, cp: bv32)
    requires it < |s|
    ensures Decoded(s, it, 3, err, it', cp)
  {
    hide IsTrail, Trails, Decoded, Code, First2, First3, First4, Last, LastButOne, LastButTwo, Plus;
    TrailSteps(s, it);
    cp, it' := s[it] as bv32, it;
    err, it' := IncreaseSafely(s, it');
    if err != Utf8Ok { NotDecoded(s, it, 2, 3, err, it', cp); return; }
    cp := Plus(First3(cp), LastButOne(s[it']));
    err, it' := IncreaseSafely(s, it');
    if err != Utf8Ok { NotDecoded(s, it, 3, 3, err, it', cp); return; }
    cp := Plus(cp, Last(s[it']));
    IsDecoded(s, it, 3, it', cp);
  }

  method GetSequence4(s: seq<Octet>, it: nat) returns (err: Utf8Error, it': nat, cp: bv32)
    requires it < |s|
    ensures Decoded(s, it, 4, err, it', cp)
  {
    hide IsTrail, Trails, Decoded, Code, First2, First3, First4, Last, LastButOne, LastButTwo, Plus;
    TrailSteps(s, it);
    cp, it' := s[it] as bv32, it;
    err, it' := IncreaseSafely(s, it');
    if err != Utf8Ok { NotDecoded(s, it, 2, 4, err, it', cp); return; }
    cp := Plus(First4(cp), LastButTwo(s[it']));
    err, it' := IncreaseSafely(s, it');
    if err != Utf8Ok { NotDecoded(s, it, 3, 4, err, it', cp); return; }
    cp := Plus(cp, LastButOne(s[it']));
    err, it' := IncreaseSafely(s, it');
    if err != Utf8Ok { NotDecoded(s, it, 4, 4, err, it', cp); return; }
    cp := Plus(cp, Last(s[it']));
    IsDecoded(s, it, 4, it', cp);
  }

  lemma NotDecoded(s: seq<Octet>, it: nat, k: nat, n: nat, err: Utf8Error, it': nat, cp: bv32)
    requires it < |s| && 2 <= k <= n <= 4 && err != Utf8Ok
    requires Trails(s, it, k) == err
    ensures Decoded(s, it, n, err, it', cp)
  {
    hide IsTrail, Code;
    TrailSteps(s, it);
  }

  lemma IsDecoded(s: seq<Octet>, it: nat, n: nat, it': nat, cp: bv32)
    requires it < |s| && 2 <= n <= 4 && Trails(s, it, n) == Utf8Ok && it' == it + n - 1 && it' < |s|
    requires n == 2 ==> cp == Code2(s[it], s[it + 1])
    requires n == 3 ==> cp == Code3(s[it], s[it + 1], s[it + 2])
    requires n == 4 ==> cp == Code4(s[it], s[it + 1], s[it + 2], s[it + 3])
    ensures Decoded(s, it, n, Utf8Ok, it', cp)
  {
    hide IsTrail, Code2, Code3, Code4, Trails;
  }

  lemma TrailSteps(s: seq<Octet>, it: nat)
    requires it < |s|
    ensures Trails(s, it, 1) == Utf8Ok
    ensures Trails(s, it, 2) == NextTrail(s, it, 2, Trails(s, it, 1))
    ensures Trails(s, it, 3) == NextTrail(s, it, 3, Trails(s, it, 2))
    ensures Trails(s, it, 4) == NextTrail(s, it, 4, Trails(s, it, 3))
  {
    hide IsTrail;
  }

  /** validate_next: moves on past a well-formed sequence, and stays where it was otherwise. */
  method ValidateNext(s: seq<Octet>, it: nat) returns (err: Utf8Error, it': nat, cp: bv32)
    requires it < |s|
    ensures Checked(s, it).Good? ==> err == Utf8Ok && it' == Checked(s, it).next && cp == Checked(s, it).cp
    ensures Checked(s, it).Bad? ==> err == Checked(s, it).err != Utf8Ok && it' == it
  {
    TrailSteps(s, it);
    hide IsTrail, IsCodePointValid, IsOverlongSequence, Code2, Code3, Code4;
    var length := SequenceLength(s[it]);
    hide SequenceLength;
    cp, err, it' := 0, Utf8Ok, it;
    var at, code := it, 0;
    if length == 0 {
      return InvalidLead, it, 0;
    } else if length == 1 {
      code := s[it] as bv32;
    } else if length == 2 {
      err, at, code := GetSequence2(s, it);
    } else if length == 3 {
      err, at, code := GetSequence3(s, it);
    } else {
      err, at, code := GetSequence4(s, it);
    }
    TrailErrors(s, it, length);
    if err == Utf8Ok {
      if IsCodePointValid(code) {
        if !IsOverlongSequence(code, length) {
          return Utf8Ok, at + 1, code;
        } else {
          err := OverlongSequence;
        }
      } else {
        err := InvalidCodePoint;
      }
    }
  }

  lemma {:induction false} TrailErrors(s: seq<Octet>, it: nat, n: nat)
    requires it < |s|
    ensures Trails(s, it, n) in {Utf8Ok, NotEnoughRoom, IncompleteSequence}
  {
    if n > 1 { TrailErrors(s, it, n - 1); }
  }
}
