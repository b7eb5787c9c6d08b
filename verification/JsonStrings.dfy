/**
  What a JSON string means (section 7 of RFC 8259, restricted to the Basic Multilingual Plane):
  escapes are decoded to UTF-8, raw bytes stand for themselves and surrogate halves are refused.
  A text may be spelled in many ways; every spelling decodes to the UTF-8 encoding of the text, and
  every well-formed string in valid UTF-8 is such a spelling.
*/
module JsonStrings {
  import opened Base
  import opened Json
  import opened Utf8

  function CodeUnit(h0: Byte, h1: Byte, h2: Byte, h3: Byte): (cp: int)
    requires IsHex(h0) && IsHex(h1) && IsHex(h2) && IsHex(h3)
    ensures 0 <= cp < 0x10000
  {
    ((HexValue(h0) * 16 + HexValue(h1)) * 16 + HexValue(h2)) * 16 + HexValue(h3)
  }

  function DecodeItem(it: Item): (t: Option<Bytes>)
    ensures t.Some? ==> ItemOk(it)
  {
    if !ItemOk(it) then None
    else
      match it
      case Raw(c) => Some([c])
      case Short(e) => Some([ShortEscape(e)])
      case Unicode(h0, h1, h2, h3) =>
        var cp := CodeUnit(h0, h1, h2, h3);
        if IsSurrogate(cp) then None else Some(Encode(cp))
  }

  /** The decoded bytes, or nothing if an escape names a surrogate half. */
  function Decode(items: seq<Item>): (t: Option<Bytes>)
    ensures t.Some? ==> ItemsOk(items)
  {
    if items == [] then Some([])
    else
      match DecodeItem(items[0])
      case None => None
      case Some(t) =>
        match Decode(items[1..])
        case None => None
        case Some(rest) => Some(t + rest)
  }

  // ---------------------------------------------------------------- spellings of a text

  /** "0123456789abcdef": the hexadecimal digits in the order of their values. */
  const LOWER_HEX: Bytes :=
    [0x30, 0x31, 0x32, 0x33, 0x34, 0x35, 0x36, 0x37, 0x38, 0x39, 0x61, 0x62, 0x63, 0x64, 0x65, 0x66]

  /** "0123456789ABCDEF" */
  const UPPER_HEX: Bytes :=
    [0x30, 0x31, 0x32, 0x33, 0x34, 0x35, 0x36, 0x37, 0x38, 0x39, 0x41, 0x42, 0x43, 0x44, 0x45, 0x46]

  predicate IsDigitOf(c: Byte, v: int) { 0 <= v < 16 && (c == LOWER_HEX[v] || c == UPPER_HEX[v]) }

  /** Four digits, each in either case, print the code unit, most significant first. */
  predicate PrintsUnit(h0: Byte, h1: Byte, h2: Byte, h3: Byte, cp: int) {
    && 0 <= cp < 0x10000 && IsDigitOf(h0, cp / 4096) && IsDigitOf(h1, cp / 256 % 16)
    && IsDigitOf(h2, cp / 16 % 16) && IsDigitOf(h3, cp % 16)
  }

  /** The eight one-letter escapes and what each stands for. */
  predicate ShortFor(e: Byte, cp: int) {
    || (e == 0x22 && cp == 0x22) || (e == 0x5C && cp == 0x5C) || (e == 0x2F && cp == 0x2F) || (e == 0x62 && cp == 0x08)
    || (e == 0x66 && cp == 0x0C) || (e == 0x6E && cp == 0x0A) || (e == 0x72 && cp == 0x0D) || (e == 0x74 && cp == 0x09)
  }

  /** The escape is one way to write the code unit. */
  predicate Spells(it: Item, cp: int) {
    match it
    case Raw(_) => false
    case Short(e) => ShortFor(e, cp)
    case Unicode(h0, h1, h2, h3) => PrintsUnit(h0, h1, h2, h3, cp)
  }

  lemma DigitValue(c: Byte, v: int)
    ensures IsHex(c) && HexValue(c) == v <==> IsDigitOf(c, v)
  {
  }

  lemma UnitIsPrinted(h0: Byte, h1: Byte, h2: Byte, h3: Byte, cp: int)
    ensures IsHex(h0) && IsHex(h1) && IsHex(h2) && IsHex(h3) && CodeUnit(h0, h1, h2, h3) == cp <==>
              PrintsUnit(h0, h1, h2, h3, cp)
  {
    hide IsHex, IsDigitOf;
    DigitValue(h0, cp / 4096);
    DigitValue(h1, cp / 256 % 16);
    DigitValue(h2, cp / 16 % 16);
    DigitValue(h3, cp % 16);
    if IsHex(h0) && IsHex(h1) && IsHex(h2) && IsHex(h3) {
      HexDigits(HexValue(h0), HexValue(h1), HexValue(h2), HexValue(h3));
    }
    FourDigits(cp);
  }

  lemma HexDigits(a: int, b: int, c: int, d: int)
    requires 0 <= a < 16 && 0 <= b < 16 && 0 <= c < 16 && 0 <= d < 16
    ensures var v := ((a * 16 + b) * 16 + c) * 16 + d;
            0 <= v < 0x10000 && v / 4096 == a && v / 256 % 16 == b && v / 16 % 16 == c && v % 16 == d
  {
    var v := ((a * 16 + b) * 16 + c) * 16 + d;
    assert v / 16 == (a * 16 + b) * 16 + c;
    assert v / 256 == a * 16 + b;
  }

  lemma FourDigits(v: int)
    ensures v == ((v / 4096 * 16 + v / 256 % 16) * 16 + v / 16 % 16) * 16 + v % 16
  {
    assert v / 256 == v / 4096 * 16 + v / 256 % 16;
    assert v / 16 == v / 256 * 16 + v / 16 % 16;
  }

  /**
    An escape is well formed exactly if it spells a code unit; it then decodes to the UTF-8 encoding of
    that very unit, or is refused if the unit is half of a surrogate pair.
  */
  lemma EscapesDecode(it: Item, cp: int)
    requires !it.Raw?
    ensures ItemOk(it) <==> exists u :: Spells(it, u)
    ensures Spells(it, cp) ==> 0 <= cp < 0x10000 && DecodeItem(it) == if IsSurrogate(cp) then None else Some(Encode(cp))
  {
    hide CodeUnit, IsHex, PrintsUnit;
    match it
    case Short(e) =>
      if IsShortEscape(e) { assert Spells(it, ShortEscape(e)); }
    case Unicode(h0, h1, h2, h3) =>
      UnitIsPrinted(h0, h1, h2, h3, cp);
      if ItemOk(it) {
        var u := CodeUnit(h0, h1, h2, h3);
        UnitIsPrinted(h0, h1, h2, h3, u);
        assert Spells(it, u);
      }
      forall u | Spells(it, u) ensures ItemOk(it) { UnitIsPrinted(h0, h1, h2, h3, u); }
      if Spells(it, cp) { UnitBound(h0, h1, h2, h3, cp); }
  }

  lemma UnitBound(h0: Byte, h1: Byte, h2: Byte, h3: Byte, cp: int)
    requires PrintsUnit(h0, h1, h2, h3, cp)
    ensures 0 <= cp < 0x10000
  {
  }

  /** One character of a text, written as itself or as an escape. */
  datatype Spelled = Plain(cp: Scalar) | Escape(cp: Scalar, it: Item)

  predicate SpelledOk(sp: Spelled) {
    match sp
    case Plain(cp) => cp >= 0x20 && cp != QUOTE && cp != BACKSLASH
    case Escape(cp, it) => Spells(it, cp)
  }

  predicate AllSpelledOk(sps: seq<Spelled>) { forall k :: 0 <= k < |sps| ==> SpelledOk(sps[k]) }

  function Meanings(sps: seq<Spelled>): seq<Scalar> {
    if sps == [] then [] else [sps[0].cp] + Meanings(sps[1..])
  }

  function Raws(s: Bytes): seq<Item> {
    if s == [] then [] else [Raw(s[0])] + Raws(s[1..])
  }

  function Spelling(sp: Spelled): seq<Item> {
    if sp.Plain? then Raws(Encode(sp.cp)) else [sp.it]
  }

  function Spellings(sps: seq<Spelled>): seq<Item> {
    if sps == [] then [] else Spelling(sps[0]) + Spellings(sps[1..])
  }

  lemma {:induction false} DecodeConcat(x: seq<Item>, y: seq<Item>)
    requires ItemsOk(x) && ItemsOk(y)
    ensures ItemsOk(x + y)
    ensures Decode(x + y) == if Decode(x).Some? && Decode(y).Some? then Some(Decode(x).value + Decode(y).value) else None
  {
    hide DecodeItem, ItemOk;
    if x == [] {
      assert x + y == y;
      if Decode(y).Some? { assert Decode(x).value + Decode(y).value == Decode(y).value; }
    } else {
      assert (x + y)[1..] == x[1..] + y;
      DecodeConcat(x[1..], y);
      if Decode(x).Some? && Decode(y).Some? {
        var t, a, c := DecodeItem(x[0]).value, Decode(x[1..]).value, Decode(y).value;
        assert t + (a + c) == (t + a) + c;
      }
    }
  }

  lemma RawDecodes(c: Byte)
    requires c >= 0x20 && c != QUOTE && c != BACKSLASH
    ensures ItemOk(Raw(c)) && DecodeItem(Raw(c)) == Some([c]) && ItemText(Raw(c)) == [c]
  {
  }

  lemma {:induction false} RawsDecode(s: Bytes)
    requires forall k :: 0 <= k < |s| ==> s[k] >= 0x20 && s[k] != QUOTE && s[k] != BACKSLASH
    ensures ItemsOk(Raws(s)) && Decode(Raws(s)) == Some(s) && Body(Raws(s)) == s
  {
    hide DecodeItem, ItemOk, ItemText;
    if s != [] {
      var it, rest := Raw(s[0]), Raws(s[1..]);
      RawsDecode(s[1..]);
      RawDecodes(s[0]);
      assert Raws(s) == [it] + rest && Raws(s)[1..] == rest;
      assert s == [s[0]] + s[1..];
    }
  }

  lemma PlainDecodes(cp: Scalar)
    requires cp >= 0x20 && cp != QUOTE && cp != BACKSLASH
    ensures ItemsOk(Raws(Encode(cp))) && Decode(Raws(Encode(cp))) == Some(Encode(cp))
  {
    EncodedIsChar(cp, []);
    RawsDecode(Encode(cp));
  }

  lemma SpelledDecodes(sp: Spelled)
    requires SpelledOk(sp)
    ensures ItemsOk(Spelling(sp)) && Decode(Spelling(sp)) == Some(Encode(sp.cp))
  {
    hide Encode, DecodeItem, Spells, ItemOk;
    match sp
    case Plain(cp) => PlainDecodes(cp);
    case Escape(cp, it) =>
      NotRaw(it, cp);
      EscapesDecode(it, cp);
      assert [it][1..] == [];
      assert Decode([it]) == DecodeItem(it) by { assert DecodeItem(it).value + [] == DecodeItem(it).value; }
  }

  lemma NotRaw(it: Item, cp: int)
    requires Spells(it, cp)
    ensures !it.Raw?
  {
  }

  /** However a text is spelled, its string decodes to the UTF-8 encoding of the text. */
  lemma {:induction false} SpellingsDecode(sps: seq<Spelled>)
    requires AllSpelledOk(sps)
    ensures ItemsOk(Spellings(sps)) && Decode(Spellings(sps)) == Some(EncodeAll(Meanings(sps)))
  {
    if sps != [] {
      SpelledDecodes(sps[0]);
      SpellingsDecode(sps[1..]);
      DecodeConcat(Spelling(sps[0]), Spellings(sps[1..]));
    }
  }

  lemma ConsSlices<T>(a: T, r: seq<T>, n: nat)
    requires 0 < n <= |r| + 1
    ensures ([a] + r)[..n] == [a] + r[..n - 1] && ([a] + r)[n..] == r[n - 1..]
  {
  }

  /** Bytes above ASCII at the start of a body are raw. */
  lemma {:induction false} HighBytesAreRaw(items: seq<Item>, n: nat)
    requires ItemsOk(items) && n <= |Body(items)| && forall k :: 0 <= k < n ==> Body(items)[k] >= 0x80
    ensures n <= |items| && items[..n] == Raws(Body(items)[..n]) && Body(items)[n..] == Body(items[n..])
    decreases n
  {
    if n > 0 {
      var tail := items[1..];
      var c := RawHead(items);
      assert forall k :: 0 <= k < n - 1 ==> Body(tail)[k] == Body(items)[k + 1];
      HighBytesAreRaw(tail, n - 1);
      ConsSlices(c, Body(tail), n);
      ConsSlices(Raw(c), tail, n);
      RawsCons(c, Body(tail)[..n - 1]);
    }
  }

  lemma RawHead(items: seq<Item>) returns (c: Byte)
    requires ItemsOk(items) && items != [] && Body(items) != [] && Body(items)[0] >= 0x80
    ensures items == [Raw(c)] + items[1..] && Body(items) == [c] + Body(items[1..])
  {
    c := Body(items)[0];
    assert ItemText(items[0])[0] == c;
    assert ItemOk(items[0]);
  }

  lemma RawsCons(c: Byte, s: Bytes)
    ensures Raws([c] + s) == [Raw(c)] + Raws(s)
  {
    assert ([c] + s)[1..] == s;
  }

  lemma ValidAfterItem(it: Item, rest: Bytes)
    requires ItemOk(it) && (it.Raw? ==> it.c < 0x80) && Valid(ItemText(it) + rest)
    ensures Valid(rest)
  {
    var t := ItemText(it);
    var x, c := t[..|t| - 1], t[|t| - 1];
    assert t + rest == x + ([c] + rest);
    SplitAtAscii(x, c, rest);
  }

  /** Every string body in valid UTF-8 without surrogate escapes spells some text. */
  lemma {:induction false} Respell(items: seq<Item>) returns (sps: seq<Spelled>)
    requires ItemsOk(items) && Decode(items).Some? && Valid(Body(items))
    ensures AllSpelledOk(sps) && Spellings(sps) == items
    decreases |items|
  {
    if items == [] {
      sps := [];
    } else {
      var sp, n := RespellFirst(items);
      var rest := Respell(items[n..]);
      sps := [sp] + rest;
      assert sps[1..] == rest;
      assert items == items[..n] + items[n..];
    }
  }

  lemma RespellFirst(items: seq<Item>) returns (sp: Spelled, n: nat)
    requires items != [] && ItemsOk(items) && Decode(items).Some? && Valid(Body(items))
    ensures SpelledOk(sp) && 0 < n <= |items| && Spelling(sp) == items[..n]
    ensures ItemsOk(items[n..]) && Decode(items[n..]).Some? && Valid(Body(items[n..]))
  {
    hide Valid, Encode;
    if items[0].Raw? && items[0].c >= 0x80 {
      sp, n := HighFirst(items);
      var _ := DecodeTail(items, n);
    } else {
      n := 1;
      ValidAfterItem(items[0], Body(items[1..]));
      var _ := DecodeTail(items, 1);
      assert items[..1] == [items[0]];
      sp := RespellLow(items[0]);
    }
  }

  lemma RespellLow(it: Item) returns (sp: Spelled)
    requires ItemOk(it) && DecodeItem(it).Some? && (it.Raw? ==> it.c < 0x80)
    ensures SpelledOk(sp) && Spelling(sp) == [it]
  {
    if it.Raw? {
      sp := Plain(it.c);
      RawsCons(it.c, []);
      assert [it.c] + [] == [it.c];
    } else {
      EscapesDecode(it, 0);
      var cp :| Spells(it, cp);
      EscapesDecode(it, cp);
      sp := Escape(cp, it);
    }
  }

  lemma DecodeTail(items: seq<Item>, n: nat) returns (head: Bytes)
    requires ItemsOk(items) && Decode(items).Some? && n <= |items|
    ensures ItemsOk(items[n..]) && Decode(items[n..]).Some? && ItemsOk(items[..n]) && Decode(items[..n]) == Some(head)
  {
    assert items == items[..n] + items[n..];
    DecodeConcat(items[..n], items[n..]);
    head := Decode(items[..n]).value;
  }

  lemma HighFirst(items: seq<Item>) returns (sp: Spelled, n: nat)
    requires items != [] && ItemsOk(items) && items[0].Raw? && items[0].c >= 0x80 && Valid(Body(items))
    ensures SpelledOk(sp) && 0 < n <= |items| && Spelling(sp) == items[..n] && Valid(Body(items[n..]))
  {
    var s := Body(items);
    n := CharLen(s);
    sp := Plain(FirstScalar(s));
    hide CharLen;
    assert s[0] == items[0].c;
    HighChar(s);
    HighBytesAreRaw(items, n);
    FirstScalarEncodes(s);
  }

  lemma HighChar(s: Bytes)
    requires s != [] && s[0] >= 0x80 && CharLen(s) > 0
    ensures FirstScalar(s) >= 0x80 && forall k :: 0 <= k < CharLen(s) ==> s[k] >= 0x80
  {
  }

  /** In a valid UTF-8 document every decoded string is valid UTF-8, and is the encoding of its text. */
  lemma DecodedIsUtf8(items: seq<Item>) returns (text: seq<Scalar>)
    requires ItemsOk(items) && Decode(items).Some? && Valid(Body(items))
    ensures Decode(items) == Some(EncodeAll(text)) && Valid(Decode(items).value)
  {
    var sps := Respell(items);
    SpellingsDecode(sps);
    text := Meanings(sps);
    EncodeAllIsValid(text);
  }
}
