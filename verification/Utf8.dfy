/** Well-formed UTF-8 (section 4 of RFC 3629) over byte strings. */
module Utf8 {
  import opened Prelude

  predicate IsContinuation(b: byte) { 0x80 <= b < 0xC0 }

  /** The length a lead byte announces; 0 when no well-formed character starts with it. */
  function LeadLen(b: byte): (w: nat)
    ensures w <= 4
    ensures w > 0 ==> !IsContinuation(b) && (w == 1 <==> b < 0x80)
  {
    if b < 0x80 then 1
    else if b < 0xC2 then 0
    else if b < 0xE0 then 2
    else if b < 0xF0 then 3
    else if b < 0xF5 then 4
    else 0
  }

  /** The second byte's narrower range after E0, ED, F0 and F4 (no overlong forms, no surrogates). */
  predicate SecondOk(lead: byte, second: byte) {
    && (lead == 0xE0 ==> second >= 0xA0)
    && (lead == 0xED ==> second < 0xA0)
    && (lead == 0xF0 ==> second >= 0x90)
    && (lead == 0xF4 ==> second < 0x90)
  }

  predicate IsChar(s: seq<byte>) {
    && |s| > 0
    && LeadLen(s[0]) == |s|
    && (forall i | 1 <= i < |s| :: IsContinuation(s[i]))
    && (|s| > 1 ==> SecondOk(s[0], s[1]))
  }

  /** Number of bytes of the well-formed character at the front of `s`; 0 when there is none. */
  function CharLen(s: seq<byte>): (w: nat)
    ensures w <= |s|
    ensures w > 0 ==> IsChar(s[..w])
  {
    if |s| > 0 && LeadLen(s[0]) <= |s| && IsChar(s[..LeadLen(s[0])]) then LeadLen(s[0]) else 0
  }

  predicate ValidUtf8(s: seq<byte>) {
    s == [] || (CharLen(s) > 0 && ValidUtf8(s[CharLen(s)..]))
  }

  /** `str::is_char_boundary`: slicing a `&str` anywhere else panics. */
  predicate IsCharBoundary(s: seq<byte>, i: nat) {
    i == |s| || (i < |s| && !IsContinuation(s[i]))
  }

  /** Cutting a valid string leaves a valid rest exactly at the character boundaries. */
  lemma {:induction false} BoundaryIffValidRest(s: seq<byte>, i: nat)
    requires ValidUtf8(s) && i <= |s|
    ensures IsCharBoundary(s, i) <==> ValidUtf8(s[i..])
  {
    if i == 0 {
      assert s[0..] == s;
    } else {
      var w := CharLen(s);
      if i < w {
        assert s[..w][i] == s[i..][0] == s[i];
        assert !IsChar(s[i..][..1]);
      } else {
        BoundaryIffValidRest(s[w..], i - w);
        assert s[w..][i - w..] == s[i..];
      }
    }
  }

  /** Whatever follows a whole character does not change how that character is read. */
  lemma CharLenPrefix(s: seq<byte>, t: seq<byte>)
    requires CharLen(s) > 0
    ensures CharLen(s + t) == CharLen(s)
  {
    var w := CharLen(s);
    assert (s + t)[..w] == s[..w];
    assert (s + t)[0] == s[..w][0] == s[0];
  }

  lemma {:induction false} ValidConcat(s: seq<byte>, t: seq<byte>)
    requires ValidUtf8(s) && ValidUtf8(t)
    ensures ValidUtf8(s + t)
  {
    if s == [] {
      assert s + t == t;
    } else {
      var w := CharLen(s);
      CharLenPrefix(s, t);
      ValidConcat(s[w..], t);
      assert (s + t)[w..] == s[w..] + t;
    }
  }

  // ---------- what is encoded ----------

  /** Unicode scalar values: code points other than surrogates. */
  predicate IsScalar(c: nat) { c < 0xD800 || 0xE000 <= c < 0x11_0000 }

  /** The UTF-8 form of a scalar value (section 3 of RFC 3629). */
  function EncodeChar(c: nat): seq<byte>
    requires IsScalar(c)
  {
    if c < 0x80 then [c]
    else if c < 0x800 then [0xC0 + c / 0x40, 0x80 + c % 0x40]
    else if c < 0x1_0000 then [0xE0 + c / 0x1000, 0x80 + c / 0x40 % 0x40, 0x80 + c % 0x40]
    else [0xF0 + c / 0x4_0000, 0x80 + c / 0x1000 % 0x40, 0x80 + c / 0x40 % 0x40, 0x80 + c % 0x40]
  }

  lemma EncodedIsChar(c: nat)
    requires IsScalar(c)
    ensures IsChar(EncodeChar(c))
  {
  }

  /** Six bits taken off the end come back as quotient and remainder. */
  lemma LowBits(high: nat, low: nat)
    requires low < 0x40
    ensures (high * 0x40 + low) / 0x40 == high && (high * 0x40 + low) % 0x40 == low
  {
  }

  lemma TwoBytes(s: seq<byte>) returns (c: nat)
    requires IsChar(s) && |s| == 2
    ensures IsScalar(c) && s == EncodeChar(c)
  {
    var a, b := s[0] as int - 0xC0, s[1] as int - 0x80;
    c := a * 0x40 + b;
    LowBits(a, b);
  }

  lemma ThreeBytes(s: seq<byte>) returns (c: nat)
    requires IsChar(s) && |s| == 3
    ensures IsScalar(c) && s == EncodeChar(c)
  {
    var a, b, d := s[0] as int - 0xE0, s[1] as int - 0x80, s[2] as int - 0x80;
    var high := a * 0x40 + b;
    c := high * 0x40 + d;
    LowBits(a, b);
    LowBits(high, d);
    assert c / 0x1000 == c / 0x40 / 0x40;
  }

  lemma FourBytes(s: seq<byte>) returns (c: nat)
    requires IsChar(s) && |s| == 4
    ensures IsScalar(c) && s == EncodeChar(c)
  {
    var a, b, d, e := s[0] as int - 0xF0, s[1] as int - 0x80, s[2] as int - 0x80, s[3] as int - 0x80;
    var top := a * 0x40 + b;
    var high := top * 0x40 + d;
    c := high * 0x40 + e;
    LowBits(a, b);
    LowBits(top, d);
    LowBits(high, e);
    assert c / 0x1000 == c / 0x40 / 0x40 && c / 0x4_0000 == c / 0x40 / 0x40 / 0x40;
  }

  lemma CharIsEncoded(s: seq<byte>) returns (c: nat)
    requires IsChar(s)
    ensures IsScalar(c) && s == EncodeChar(c)
  {
    if |s| == 1 {
      c := s[0];
    } else if |s| == 2 {
      c := TwoBytes(s);
    } else if |s| == 3 {
      c := ThreeBytes(s);
    } else {
      c := FourBytes(s);
    }
  }

  predicate AllScalars(cs: seq<nat>) { forall i | 0 <= i < |cs| :: IsScalar(cs[i]) }

  function EncodeAll(cs: seq<nat>): seq<byte>
    requires AllScalars(cs)
  {
    if cs == [] then [] else EncodeChar(cs[0]) + EncodeAll(cs[1..])
  }

  lemma {:induction false} EncodedIsValid(cs: seq<nat>)
    requires AllScalars(cs)
    ensures ValidUtf8(EncodeAll(cs))
  {
    hide EncodeChar, IsChar;
    if cs != [] {
      var first, rest := EncodeChar(cs[0]), EncodeAll(cs[1..]);
      EncodedIsChar(cs[0]);
      EncodedIsValid(cs[1..]);
      FirstChar(first, rest);
      assert (first + rest)[|first|..] == rest;
    }
  }

  lemma FirstChar(first: seq<byte>, rest: seq<byte>)
    requires IsChar(first)
    ensures CharLen(first + rest) == |first|
  {
    assert (first + rest)[..|first|] == first;
    assert (first + rest)[0] == first[0];
  }

  lemma {:induction false} ValidIsEncoded(s: seq<byte>) returns (cs: seq<nat>)
    requires ValidUtf8(s)
    ensures AllScalars(cs) && s == EncodeAll(cs)
  {
    hide EncodeChar, IsChar, IsScalar;
    cs := [];
    if s != [] {
      var w := CharLen(s);
      var c := CharIsEncoded(s[..w]);
      var more := ValidIsEncoded(s[w..]);
      cs := [c] + more;
      assert cs[1..] == more;
      assert s == s[..w] + s[w..];
    }
  }

  /** The valid strings are the encodings of sequences of scalar values, and no others. */
  lemma ValidIff(s: seq<byte>)
    ensures ValidUtf8(s) <==> exists cs | AllScalars(cs) :: s == EncodeAll(cs)
  {
    hide ValidUtf8, EncodeAll;
    if ValidUtf8(s) {
      var cs := ValidIsEncoded(s);
    }
    if cs :| AllScalars(cs) && s == EncodeAll(cs) {
      EncodedIsValid(cs);
    }
  }
}
