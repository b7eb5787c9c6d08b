/**
  Unpadded base64url (section 5 of RFC 4648) as both encoders of the repository write it: the Rust
  one over chunks of three bytes, the TypeScript one over an index. Both are proved against one
  function, which has a left inverse and stays within the alphabet the scanner accepts.
*/
module Base64Url {
  import opened Base
  import ClientDataJson

  /** The alphabet: A-Z, a-z, 0-9, hyphen-minus, low line. */
  function Symbol(v: int): (c: Byte)
    requires 0 <= v < 64
    ensures ClientDataJson.IsB64UrlChar(c)
  {
    if v < 26 then 0x41 + v else if v < 52 then 0x61 + (v - 26)
    else if v < 62 then 0x30 + (v - 52) else if v == 62 then 0x2D else 0x5F
  }

  function SymbolValue(c: Byte): (v: int)
    requires ClientDataJson.IsB64UrlChar(c)
    ensures 0 <= v < 64 && Symbol(v) == c
  {
    if 0x41 <= c <= 0x5A then c - 0x41
    else if 0x61 <= c <= 0x7A then c - 0x61 + 26
    else if 0x30 <= c <= 0x39 then c - 0x30 + 52
    else if c == 0x2D then 62 else 63
  }

  const LETTERS := "ABCDEFGHIJKLMNOPQRSTUVWXYZ"
  const SMALL_LETTERS := "abcdefghijklmnopqrstuvwxyz"
  const DIGITS := "0123456789"

  /** The symbols are the alphabet of section 5 of RFC 4648, in its order. */
  lemma SymbolIsNamed(v: int)
    requires 0 <= v < 64
    ensures v < 26 ==> Symbol(v) == LETTERS[v] as int
    ensures 26 <= v < 52 ==> Symbol(v) == SMALL_LETTERS[v - 26] as int
    ensures 52 <= v < 62 ==> Symbol(v) == DIGITS[v - 52] as int
    ensures v == 62 ==> Symbol(v) == '-' as int
    ensures v == 63 ==> Symbol(v) == '_' as int
  {
  }

  /** The four symbols of a 24-bit group, most significant first. */
  function Group(n: int): (s: Bytes)
    requires 0 <= n < 0x100_0000
    ensures |s| == 4
  {
    [Symbol(n / 262144 % 64), Symbol(n / 4096 % 64), Symbol(n / 64 % 64), Symbol(n % 64)]
  }

  function Bits24(a: Byte, b: Byte, c: Byte): (n: int)
    ensures 0 <= n < 0x100_0000
  {
    a * 65536 + b * 256 + c
  }

  /** The remainder of one or two bytes: their bits padded with zeros, the unused symbols dropped. */
  function Tail(s: Bytes): Bytes
    requires |s| < 3
  {
    if |s| == 0 then []
    else if |s| == 1 then Group(Bits24(s[0], 0, 0))[..2]
    else Group(Bits24(s[0], s[1], 0))[..3]
  }

  function Encode(s: Bytes): Bytes
    decreases |s|
  {
    if |s| < 3 then Tail(s) else Group(Bits24(s[0], s[1], s[2])) + Encode(s[3..])
  }

  // ---------------------------------------------------------------- the inverse

  function Value4(a: int, b: int, c: int, d: int): int { a * 262144 + b * 4096 + c * 64 + d }

  function Bytes3(n: int): Bytes
    requires 0 <= n < 0x100_0000
  {
    [n / 65536, n / 256 % 256, n % 256]
  }

  predicate InAlphabet(t: Bytes) { forall k :: 0 <= k < |t| ==> ClientDataJson.IsB64UrlChar(t[k]) }

  function Decode(t: Bytes): Bytes
    requires InAlphabet(t)
    decreases |t|
  {
    if |t| >= 4 then
      Bytes3(Value4(SymbolValue(t[0]), SymbolValue(t[1]), SymbolValue(t[2]), SymbolValue(t[3]))) + Decode(t[4..])
    else if |t| == 3 then Bytes3(Value4(SymbolValue(t[0]), SymbolValue(t[1]), SymbolValue(t[2]), 0))[..2]
    else if |t| == 2 then Bytes3(Value4(SymbolValue(t[0]), SymbolValue(t[1]), 0, 0))[..1]
    else []
  }

  lemma SymbolInverse(v: int)
    requires 0 <= v < 64
    ensures SymbolValue(Symbol(v)) == v
  {
  }

  /** The four 6-bit digits of a 24-bit number determine it. */
  lemma SixBitDigits(n: int)
    requires 0 <= n < 0x100_0000
    ensures n / 262144 < 64 && n == Value4(n / 262144 % 64, n / 4096 % 64, n / 64 % 64, n % 64)
  {
    assert n / 64 == n / 4096 * 64 + n / 64 % 64;
    assert n / 4096 == n / 262144 * 64 + n / 4096 % 64;
  }

  lemma EightBitDigits(a: Byte, b: Byte, c: Byte)
    ensures Bytes3(Bits24(a, b, c)) == [a, b, c]
  {
    var n: int, low: int := Bits24(a, b, c), b as int * 256 + c;
    assert n == a * 65536 + low && 0 <= low < 65536;
    assert n / 65536 == a;
    assert n == (a as int * 256 + b) * 256 + c;
    assert n / 256 == a as int * 256 + b && n % 256 == c;
  }

  lemma GroupValue(n: int)
    requires 0 <= n < 0x100_0000
    ensures var t := Group(n);
            && InAlphabet(t)
            && Value4(SymbolValue(t[0]), SymbolValue(t[1]), SymbolValue(t[2]), SymbolValue(t[3])) == n
    ensures n % 64 == 0 ==> SymbolValue(Group(n)[3]) == 0
    ensures n % 4096 == 0 ==> SymbolValue(Group(n)[2]) == 0
  {
    hide Symbol, SymbolValue;
    SixBitDigits(n);
    SymbolInverse(n / 262144 % 64);
    SymbolInverse(n / 4096 % 64);
    SymbolInverse(n / 64 % 64);
    SymbolInverse(n % 64);
  }

  lemma PaddingBits(a: Byte, b: Byte)
    ensures Bits24(a, 0, 0) % 4096 == 0 && Bits24(a, b, 0) % 64 == 0
  {
    Multiples(a as int * 16);
    Multiples(a as int * 1024 + b as int * 4);
  }

  lemma Multiples(q: int)
    ensures q * 4096 % 4096 == 0 && q * 64 % 64 == 0
  {
  }

  lemma TailDecodes(s: Bytes)
    requires |s| < 3
    ensures InAlphabet(Tail(s)) && Decode(Tail(s)) == s && |Tail(s)| == (4 * |s| + 2) / 3
  {
    hide Group, SymbolValue, Value4, Bytes3, Bits24;
    if |s| == 1 {
      PaddingBits(s[0], 0);
      GroupValue(Bits24(s[0], 0, 0));
      EightBitDigits(s[0], 0, 0);
    } else if |s| == 2 {
      PaddingBits(s[0], s[1]);
      GroupValue(Bits24(s[0], s[1], 0));
      EightBitDigits(s[0], s[1], 0);
    }
  }

  /** Decoding undoes encoding, every symbol is in the alphabet and the length is the unpadded one. */
  lemma {:induction false} DecodeEncode(s: Bytes)
    ensures InAlphabet(Encode(s)) && Decode(Encode(s)) == s
    ensures |Encode(s)| == (4 * |s| + 2) / 3
    decreases |s|
  {
    hide Group, SymbolValue, Value4, Bytes3, Bits24, Tail;
    if |s| < 3 {
      TailDecodes(s);
    } else {
      var g, rest := Group(Bits24(s[0], s[1], s[2])), s[3..];
      DecodeEncode(rest);
      GroupValue(Bits24(s[0], s[1], s[2]));
      EightBitDigits(s[0], s[1], s[2]);
      assert (g + Encode(rest))[4..] == Encode(rest);
      assert s == [s[0], s[1], s[2]] + rest;
    }
  }

  /** Distinct byte strings have distinct encodings. */
  lemma EncodeInjective(s: Bytes, t: Bytes)
    requires Encode(s) == Encode(t)
    ensures s == t
  {
    DecodeEncode(s);
    DecodeEncode(t);
  }

  // ---------------------------------------------------------------- the two encoders

  lemma EncodeStep(s: Bytes, i: nat, out: Bytes)
    requires i + 3 <= |s|
    ensures out + Encode(s[i..]) == (out + Group(Bits24(s[i], s[i + 1], s[i + 2]))) + Encode(s[i + 3..])
  {
    hide Group, Bits24;
    assert s[i..][3..] == s[i + 3..];
  }

  lemma EncodeLast(s: Bytes, i: nat)
    requires i <= |s| < i + 3
    ensures Encode(s[i..]) == Tail(s[i..])
    ensures |s| == i ==> Tail(s[i..]) == []
    ensures |s| == i + 1 ==> Tail(s[i..]) == Group(Bits24(s[i], 0, 0))[..2]
    ensures |s| == i + 2 ==> Tail(s[i..]) == Group(Bits24(s[i], s[i + 1], 0))[..3]
  {
    hide Group, Bits24;
  }

  lemma GroupSymbols(n: int, out: Bytes)
    requires 0 <= n < 0x100_0000
    ensures var s0, s1, s2, s3 := Symbol(n / 262144 % 64), Symbol(n / 4096 % 64), Symbol(n / 64 % 64), Symbol(n % 64);
            && out + [s0] + [s1] + [s2] + [s3] == out + Group(n)
            && out + [s0] + [s1] + [s2] == out + Group(n)[..3]
            && out + [s0] + [s1] == out + Group(n)[..2]
  {
    hide Symbol;
  }

  /** The Rust encoder: exact chunks of three, then a match on the remainder. */
  method B64UrlNoPad(s: Bytes) returns (out: Bytes)
    ensures out == Encode(s)
  {
    hide Encode, Symbol, Group, Bits24;
    out := [];
    var chunks := |s| / 3;
    for k := 0 to chunks
      invariant out + Encode(s[3 * k..]) == Encode(s)
    {
      EncodeStep(s, 3 * k, out);
      var n := Bits24(s[3 * k], s[3 * k + 1], s[3 * k + 2]);
      GroupSymbols(n, out);
      out := out + [Symbol(n / 262144 % 64)] + [Symbol(n / 4096 % 64)] + [Symbol(n / 64 % 64)] + [Symbol(n % 64)];
    }
    var rem := |s| - 3 * chunks;
    EncodeLast(s, 3 * chunks);
    if rem == 1 {
      var n := Bits24(s[3 * chunks], 0, 0);
      GroupSymbols(n, out);
      out := out + [Symbol(n / 262144 % 64)] + [Symbol(n / 4096 % 64)];
    } else if rem == 2 {
      var n := Bits24(s[3 * chunks], s[3 * chunks + 1], 0);
      GroupSymbols(n, out);
      out := out + [Symbol(n / 262144 % 64)] + [Symbol(n / 4096 % 64)] + [Symbol(n / 64 % 64)];
    }
  }

  /** The TypeScript encoder: an index advanced by three while three bytes are left. */
  method ChallengeB64Url(s: Bytes) returns (out: Bytes)
    ensures out == Encode(s)
  {
    hide Encode, Symbol, Group, Bits24;
    out := [];
    var i := 0;
    while i + 3 <= |s|
      invariant 0 <= i <= |s| && out + Encode(s[i..]) == Encode(s)
    {
      EncodeStep(s, i, out);
      var n := Bits24(s[i], s[i + 1], s[i + 2]);
      GroupSymbols(n, out);
      out := out + [Symbol(n / 262144 % 64)] + [Symbol(n / 4096 % 64)] + [Symbol(n / 64 % 64)] + [Symbol(n % 64)];
      i := i + 3;
    }
    var rem := |s| - i;
    EncodeLast(s, i);
    if rem == 1 {
      var n := Bits24(s[i], 0, 0);
      GroupSymbols(n, out);
      out := out + [Symbol(n / 262144 % 64)] + [Symbol(n / 4096 % 64)];
    } else if rem == 2 {
      var n := Bits24(s[i], s[i + 1], 0);
      GroupSymbols(n, out);
      out := out + [Symbol(n / 262144 % 64)] + [Symbol(n / 4096 % 64)] + [Symbol(n / 64 % 64)];
    }
  }
}
