/** UTF-8 (sections 3 and 4 of RFC 3629): the encoder, well-formed byte strings, and their agreement. */
module Utf8 {
  import opened Base

  predicate IsSurrogate(cp: int) { 0xD800 <= cp <= 0xDFFF }

  /** A Unicode scalar value. */
  type Scalar = cp: int | 0 <= cp <= 0x10FFFF && !IsSurrogate(cp)

  /** Division and remainder stand for the shifts and masks; the bits that are or-ed never overlap. */
  function Encode(cp: Scalar): (s: Bytes)
    ensures 1 <= |s| <= 4
  {
    if cp < 0x80 then [cp]
    else if cp < 0x800 then [0xC0 + cp / 64, 0x80 + cp % 64]
    else if cp < 0x10000 then [0xE0 + cp / 4096, 0x80 + cp / 64 % 64, 0x80 + cp % 64]
    else [0xF0 + cp / 262144, 0x80 + cp / 4096 % 64, 0x80 + cp / 64 % 64, 0x80 + cp % 64]
  }

  function EncodeAll(cps: seq<Scalar>): Bytes {
    if cps == [] then [] else Encode(cps[0]) + EncodeAll(cps[1..])
  }

  predicate IsTail(c: Byte) { 0x80 <= c <= 0xBF }

  /** The length of the well-formed character that `s` starts with, or 0 if there is none. */
  function CharLen(s: Bytes): (n: nat)
    ensures n <= |s| && n <= 4
  {
    if |s| >= 1 && s[0] < 0x80 then 1
    else if |s| >= 2 && 0xC2 <= s[0] <= 0xDF && IsTail(s[1]) then 2
    else if |s| >= 3 && 0xE0 <= s[0] <= 0xEF && IsTail(s[1]) && IsTail(s[2])
         && (s[0] == 0xE0 ==> s[1] >= 0xA0) && (s[0] == 0xED ==> s[1] <= 0x9F) then 3
    else if |s| >= 4 && 0xF0 <= s[0] <= 0xF4 && IsTail(s[1]) && IsTail(s[2]) && IsTail(s[3])
         && (s[0] == 0xF0 ==> s[1] >= 0x90) && (s[0] == 0xF4 ==> s[1] <= 0x8F) then 4
    else 0
  }

  /** `core::str::from_utf8` accepts `s`. */
  predicate Valid(s: Bytes) {
    s == [] || (CharLen(s) > 0 && Valid(s[CharLen(s)..]))
  }

  /** The scalar value of the character that `s` starts with. */
  function FirstScalar(s: Bytes): (cp: Scalar)
    requires CharLen(s) > 0
  {
    var n := CharLen(s);
    if n == 1 then s[0]
    else if n == 2 then (s[0] as int - 0xC0) * 64 + (s[1] as int - 0x80)
    else if n == 3 then (s[0] as int - 0xE0) * 4096 + (s[1] as int - 0x80) * 64 + (s[2] as int - 0x80)
    else (s[0] as int - 0xF0) * 262144 + (s[1] as int - 0x80) * 4096 + (s[2] as int - 0x80) * 64 + (s[3] as int - 0x80)
  }

  lemma Base64Digits(a: int, b: int, c: int, d: int)
    requires 0 <= a && 0 <= b < 64 && 0 <= c < 64 && 0 <= d < 64
    ensures var v := a * 262144 + b * 4096 + c * 64 + d;
            v / 262144 == a && v / 4096 % 64 == b && v / 64 % 64 == c && v % 64 == d
            && v / 4096 == a * 64 + b && v / 64 == a * 4096 + b * 64 + c
  {
    var v := a * 262144 + b * 4096 + c * 64 + d;
    assert v == (a * 4096 + b * 64 + c) * 64 + d;
    assert v / 64 == a * 4096 + b * 64 + c;
    assert v == (a * 64 + b) * 4096 + (c * 64 + d);
    assert v / 4096 == a * 64 + b;
  }

  /** `FirstScalar` undoes `Encode`. */
  lemma FirstScalarEncodes(s: Bytes)
    requires CharLen(s) > 0
    ensures Encode(FirstScalar(s)) == s[..CharLen(s)]
  {
    var n := CharLen(s);
    if n == 2 { Base64Digits(0, 0, s[0] - 0xC0, s[1] - 0x80); }
    if n == 3 { Base64Digits(0, s[0] - 0xE0, s[1] - 0x80, s[2] - 0x80); }
    if n == 4 { Base64Digits(s[0] - 0xF0, s[1] - 0x80, s[2] - 0x80, s[3] - 0x80); }
  }

  lemma EncodedIsChar(cp: Scalar, rest: Bytes)
    ensures CharLen(Encode(cp) + rest) == |Encode(cp)|
    ensures cp >= 0x80 ==> forall k :: 0 <= k < |Encode(cp)| ==> Encode(cp)[k] >= 0x80
  {
    var s := Encode(cp) + rest;
    EncodeIsTable(cp);
    assert forall k :: 0 <= k < |Encode(cp)| ==> s[k] == Encode(cp)[k];
  }

  lemma EncodeIsTable(cp: Scalar)
    ensures CharLen(Encode(cp)) == |Encode(cp)|
  {
    if 0x800 <= cp < 0x10000 { ThreeBytes(cp); }
    if 0x10000 <= cp { FourBytes(cp); }
  }

  lemma ThreeBytes(cp: Scalar)
    requires 0x800 <= cp < 0x10000
    ensures 0 <= cp / 4096 < 16
    ensures cp / 4096 == 0 ==> 0x20 <= cp / 64 % 64
    ensures cp / 4096 == 0xD ==> cp / 64 % 64 < 0x20
  {
    var a := cp / 4096;
    assert cp / 64 == a * 64 + cp / 64 % 64;
    if a == 0xD {
      assert 0xD000 <= cp < 0xE000;
      assert !IsSurrogate(cp);
      assert cp / 64 < 864;
    }
  }

  lemma FourBytes(cp: Scalar)
    requires 0x10000 <= cp
    ensures 0 <= cp / 262144 <= 4
    ensures cp / 262144 == 0 ==> 0x10 <= cp / 4096 % 64
    ensures cp / 262144 == 4 ==> cp / 4096 % 64 < 0x10
  {
    var a, b := cp / 262144, cp / 4096 % 64;
    assert cp / 4096 == a * 64 + b;
    assert 0x10 <= cp / 4096 <= 0x10F;
  }

  lemma {:induction false} EncodeAllIsValid(cps: seq<Scalar>)
    ensures Valid(EncodeAll(cps))
  {
    if cps != [] {
      EncodeAllIsValid(cps[1..]);
      EncodedIsChar(cps[0], EncodeAll(cps[1..]));
    }
  }

  /** The well-formed byte strings are exactly the encodings of scalar value sequences. */
  lemma {:induction false} ValidIsEncoded(s: Bytes) returns (cps: seq<Scalar>)
    requires Valid(s)
    ensures EncodeAll(cps) == s
  {
    if s == [] {
      cps := [];
    } else {
      var n := CharLen(s);
      var rest := ValidIsEncoded(s[n..]);
      cps := [FirstScalar(s)] + rest;
      assert cps[1..] == rest;
      FirstScalarEncodes(s);
      assert s == s[..n] + s[n..];
    }
  }

  /** An ASCII byte is a character boundary on both sides. */
  lemma {:induction false} SplitAtAscii(x: Bytes, c: Byte, y: Bytes)
    requires c < 0x80
    ensures Valid(x + ([c] + y)) <==> Valid(x) && Valid(y)
    decreases |x|
  {
    var s := x + ([c] + y);
    if x == [] {
      assert s == [c] + y;
      assert s[1..] == y;
    } else {
      var n := CharLen(s);
      CharBeforeAscii(x, c, y);
      if 0 < n {
        assert s[n..] == x[n..] + ([c] + y);
        SplitAtAscii(x[n..], c, y);
      }
    }
  }

  lemma CharBeforeAscii(x: Bytes, c: Byte, y: Bytes)
    requires x != [] && c < 0x80
    ensures CharLen(x + ([c] + y)) == CharLen(x)
  {
    var s := x + ([c] + y);
    assert forall k :: 0 <= k < |x| ==> s[k] == x[k];
    assert s[|x|] == c;
  }

  lemma {:induction false} AsciiIsValid(s: Bytes)
    requires forall k :: 0 <= k < |s| ==> s[k] < 0x80
    ensures Valid(s)
  {
    if s != [] { AsciiIsValid(s[1..]); }
  }
}
