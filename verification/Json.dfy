/**
  JSON text (sections 2 to 7 of RFC 8259) as a concrete syntax tree, the text each tree stands for,
  and a recursive reader. `Sound*` and `Complete*` show that the reader inverts the text function:
  it accepts exactly the texts of well-formed trees, so the grammar below is the specification and
  the reader is only a convenient computable form of it.
*/
module Json {
  import opened Base

  const QUOTE: Byte := 0x22
  const BACKSLASH: Byte := 0x5C
  const COLON: Byte := 0x3A
  const COMMA: Byte := 0x2C
  const LBRACE: Byte := 0x7B
  const RBRACE: Byte := 0x7D
  const LBRACKET: Byte := 0x5B
  const RBRACKET: Byte := 0x5D
  const MINUS: Byte := 0x2D
  const PLUS: Byte := 0x2B
  const DOT: Byte := 0x2E
  const ZERO: Byte := 0x30
  const LOWER_U: Byte := 0x75
  const TRUE: Bytes := [0x74, 0x72, 0x75, 0x65]
  const FALSE: Bytes := [0x66, 0x61, 0x6C, 0x73, 0x65]
  const NULL: Bytes := [0x6E, 0x75, 0x6C, 0x6C]

  predicate IsWs(c: Byte) { c == 0x20 || c == 0x09 || c == 0x0A || c == 0x0D }

  predicate IsDigit(c: Byte) { 0x30 <= c <= 0x39 }

  predicate IsHex(c: Byte) { IsDigit(c) || 0x61 <= c <= 0x66 || 0x41 <= c <= 0x46 }

  function HexValue(c: Byte): (v: int)
    requires IsHex(c)
    ensures 0 <= v < 16
  {
    if IsDigit(c) then c - 0x30 else if 0x61 <= c then c - 0x61 + 10 else c - 0x41 + 10
  }

  /** The one-letter escapes: quotation mark, reverse solidus, solidus, b, f, n, r, t. */
  predicate IsShortEscape(c: Byte) {
    c == QUOTE || c == BACKSLASH || c == 0x2F || c == 0x62 || c == 0x66 || c == 0x6E || c == 0x72 || c == 0x74
  }

  function ShortEscape(c: Byte): Byte
    requires IsShortEscape(c)
  {
    if c == 0x62 then 0x08 else if c == 0x66 then 0x0C else if c == 0x6E then 0x0A
    else if c == 0x72 then 0x0D else if c == 0x74 then 0x09 else c
  }

  // ---------------------------------------------------------------- the grammar

  /** One element of a string body. */
  datatype Item = Raw(c: Byte) | Short(e: Byte) | Unicode(h0: Byte, h1: Byte, h2: Byte, h3: Byte)

  datatype Exponent = Exponent(mark: Byte, sign: Option<Byte>, digits: Bytes)
  datatype Number = Number(neg: bool, whole: Bytes, frac: Option<Bytes>, exp: Option<Exponent>)
  datatype Literal = True | False | Null

  datatype Value =
    | Str(items: seq<Item>)
    | Num(num: Number)
    | Lit(lit: Literal)
    | Empty(isObject: bool, ws: Bytes)
    | Container(isObject: bool, entries: Entries)

  /** A non-empty list of members or elements. */
  datatype Entries = Last(e: Entry) | More(e: Entry, rest: Entries)

  /** `key` is present exactly in objects; `pre` and `post` surround the value. */
  datatype Entry = Entry(key: Option<Key>, pre: Bytes, v: Value, post: Bytes)
  datatype Key = Key(pre: Bytes, items: seq<Item>, post: Bytes)

  predicate AllWs(s: Bytes) { forall k :: 0 <= k < |s| ==> IsWs(s[k]) }

  predicate AllDigits(s: Bytes) { forall k :: 0 <= k < |s| ==> IsDigit(s[k]) }

  predicate ItemOk(it: Item) {
    match it
    case Raw(c) => c >= 0x20 && c != QUOTE && c != BACKSLASH
    case Short(e) => IsShortEscape(e)
    case Unicode(h0, h1, h2, h3) => IsHex(h0) && IsHex(h1) && IsHex(h2) && IsHex(h3)
  }

  function ItemText(it: Item): Bytes {
    match it
    case Raw(c) => [c]
    case Short(e) => [BACKSLASH, e]
    case Unicode(h0, h1, h2, h3) => [BACKSLASH, LOWER_U, h0, h1, h2, h3]
  }

  function Body(items: seq<Item>): Bytes {
    if items == [] then [] else ItemText(items[0]) + Body(items[1..])
  }

  predicate ItemsOk(items: seq<Item>) { forall k :: 0 <= k < |items| ==> ItemOk(items[k]) }

  function StringText(items: seq<Item>): Bytes { [QUOTE] + Body(items) + [QUOTE] }

  predicate NumberOk(n: Number) {
    && n.whole != [] && AllDigits(n.whole) && (n.whole[0] == ZERO ==> |n.whole| == 1)
    && (n.frac.Some? ==> n.frac.value != [] && AllDigits(n.frac.value))
    && (n.exp.Some? ==> ExponentOk(n.exp.value))
  }

  predicate ExponentOk(x: Exponent) {
    && (x.mark == 0x65 || x.mark == 0x45)
    && (x.sign.Some? ==> x.sign.value == PLUS || x.sign.value == MINUS)
    && x.digits != [] && AllDigits(x.digits)
  }

  function NumberText(n: Number): Bytes {
    SignText(n.neg) + (n.whole + (FracText(n.frac) + ExpText(n.exp)))
  }

  function FracText(f: Option<Bytes>): Bytes { if f.Some? then [DOT] + f.value else [] }

  function ExpText(x: Option<Exponent>): Bytes {
    if x.None? then []
    else [x.value.mark] + (ExpSign(x.value) + x.value.digits)
  }

  function LiteralText(l: Literal): Bytes {
    match l case True => TRUE case False => FALSE case Null => NULL
  }

  function Opener(isObject: bool): Byte { if isObject then LBRACE else LBRACKET }

  function Closer(isObject: bool): Byte { if isObject then RBRACE else RBRACKET }

  predicate ValueOk(v: Value) {
    match v
    case Str(items) => ItemsOk(items)
    case Num(n) => NumberOk(n)
    case Lit(_) => true
    case Empty(_, ws) => AllWs(ws)
    case Container(isObject, es) => EntriesOk(es, isObject)
  }

  predicate EntriesOk(es: Entries, isObject: bool) {
    match es
    case Last(e) => EntryOk(e, isObject)
    case More(e, rest) => EntryOk(e, isObject) && EntriesOk(rest, isObject)
  }

  predicate EntryOk(e: Entry, isObject: bool) {
    && (e.key.Some? <==> isObject)
    && (e.key.Some? ==> KeyOk(e.key.value))
    && AllWs(e.pre) && ValueOk(e.v) && AllWs(e.post)
  }

  predicate KeyOk(k: Key) { AllWs(k.pre) && ItemsOk(k.items) && AllWs(k.post) }

  function Text(v: Value): Bytes {
    match v
    case Str(items) => StringText(items)
    case Num(n) => NumberText(n)
    case Lit(l) => LiteralText(l)
    case Empty(isObject, ws) => [Opener(isObject)] + (ws + [Closer(isObject)])
    case Container(isObject, es) => [Opener(isObject)] + (EntriesText(es) + [Closer(isObject)])
  }

  function EntriesText(es: Entries): Bytes {
    match es
    case Last(e) => EntryText(e)
    case More(e, rest) => EntryText(e) + ([COMMA] + EntriesText(rest))
  }

  function EntryText(e: Entry): Bytes { KeyText(e.key) + (e.pre + (Text(e.v) + e.post)) }

  function KeyText(k: Option<Key>): Bytes {
    if k.None? then [] else k.value.pre + (StringText(k.value.items) + (k.value.post + [COLON]))
  }

  /** How many containers are nested inside one another. */
  function Depth(v: Value): nat {
    match v
    case Empty(_, _) => 1
    case Container(_, es) => 1 + EntriesDepth(es)
    case _ => 0
  }

  function EntriesDepth(es: Entries): nat {
    match es
    case Last(e) => Depth(e.v)
    case More(e, rest) => if Depth(e.v) >= EntriesDepth(rest) then Depth(e.v) else EntriesDepth(rest)
  }

  // ---------------------------------------------------------------- the recursive reader

  function SkipWs(b: Bytes, i: nat): (j: nat)
    requires i <= |b|
    ensures i <= j <= |b| && AllWs(b[i..j]) && (j < |b| ==> !IsWs(b[j]))
    decreases |b| - i
  {
    if i < |b| && IsWs(b[i]) then
      var j := SkipWs(b, i + 1);
      assert b[i..j] == [b[i]] + b[i + 1..j];
      j
    else i
  }

  function SkipDigits(b: Bytes, i: nat): (j: nat)
    requires i <= |b|
    ensures i <= j <= |b| && AllDigits(b[i..j]) && (j < |b| ==> !IsDigit(b[j]))
    decreases |b| - i
  {
    if i < |b| && IsDigit(b[i]) then
      var j := SkipDigits(b, i + 1);
      assert b[i..j] == [b[i]] + b[i + 1..j];
      j
    else i
  }

  /** Reads one element of a string body; the closing quotation mark is not one. */
  function ReadItem(b: Bytes, i: nat): (r: Parsed<Item>)
    requires i <= |b|
    ensures r.Got? ==> i < r.end <= |b| && r.end == i + |ItemText(r.value)|
  {
    if i >= |b| || b[i] == QUOTE || b[i] < 0x20 then Stuck
    else if b[i] != BACKSLASH then Got(Raw(b[i]), i + 1)
    else if i + 1 >= |b| then Stuck
    else if IsShortEscape(b[i + 1]) then Got(Short(b[i + 1]), i + 2)
    else if b[i + 1] == LOWER_U && HexAt(b, i + 2)
    then Got(Unicode(b[i + 2], b[i + 3], b[i + 4], b[i + 5]), i + 6)
    else Stuck
  }

  predicate HexAt(b: Bytes, i: nat) {
    i + 4 <= |b| && IsHex(b[i]) && IsHex(b[i + 1]) && IsHex(b[i + 2]) && IsHex(b[i + 3])
  }

  /** Reads a string body and its closing quotation mark. */
  function ReadItems(b: Bytes, i: nat): (r: Parsed<seq<Item>>)
    requires i <= |b|
    ensures r.Got? ==> i < r.end <= |b|
    decreases |b| - i
  {
    if i < |b| && b[i] == QUOTE then Got([], i + 1)
    else
      match ReadItem(b, i)
      case Stuck => Stuck
      case Got(it, j) =>
        match ReadItems(b, j)
        case Stuck => Stuck
        case Got(items, k) => Got([it] + items, k)
  }

  function ReadString(b: Bytes, i: nat): (r: Parsed<seq<Item>>)
    requires i <= |b|
    ensures r.Got? ==> i < r.end <= |b|
  {
    if i < |b| && b[i] == QUOTE then ReadItems(b, i + 1) else Stuck
  }

  function ReadNumber(b: Bytes, i: nat): (r: Parsed<Number>)
    requires i <= |b|
    ensures r.Got? ==> i < r.end <= |b|
  {
    var p := if i < |b| && b[i] == MINUS then i + 1 else i;
    if p >= |b| || !IsDigit(b[p]) then Stuck
    else
      var q := if b[p] == ZERO then p + 1 else SkipDigits(b, p + 1);
      match ReadFrac(b, q)
      case Stuck => Stuck
      case Got(frac, f) =>
        match ReadExp(b, f)
        case Stuck => Stuck
        case Got(exp, x) => Got(Number(p != i, b[p..q], frac, exp), x)
  }

  function ReadFrac(b: Bytes, q: nat): (r: Parsed<Option<Bytes>>)
    requires q <= |b|
    ensures r.Got? ==> q <= r.end <= |b|
  {
    if q < |b| && b[q] == DOT then
      var f := SkipDigits(b, q + 1);
      if f == q + 1 then Stuck else Got(Some(b[q + 1..f]), f)
    else Got(None, q)
  }

  function ReadExp(b: Bytes, f: nat): (r: Parsed<Option<Exponent>>)
    requires f <= |b|
    ensures r.Got? ==> f <= r.end <= |b|
  {
    if f < |b| && (b[f] == 0x65 || b[f] == 0x45) then
      var signed := f + 1 < |b| && (b[f + 1] == PLUS || b[f + 1] == MINUS);
      var g := if signed then f + 2 else f + 1;
      var x := SkipDigits(b, g);
      if x == g then Stuck
      else Got(Some(Exponent(b[f], if signed then Some(b[f + 1]) else None, b[g..x])), x)
    else Got(None, f)
  }

  function ReadLiteral(b: Bytes, i: nat, l: Literal): (r: Parsed<Literal>)
    requires i <= |b|
    ensures r.Got? ==> i < r.end <= |b|
  {
    var t := LiteralText(l);
    if i + |t| <= |b| && b[i..i + |t|] == t then Got(l, i + |t|) else Stuck
  }

  /** Reads a string, a literal or a number, chosen by its first byte. */
  function ReadScalar(b: Bytes, j: nat): (r: Parsed<Value>)
    requires j < |b|
    ensures r.Got? ==> j < r.end <= |b| && (r.value.Str? || r.value.Lit? || r.value.Num?)
  {
    if b[j] == QUOTE then
      (match ReadString(b, j) case Stuck => Stuck case Got(items, e) => Got(Str(items), e))
    else if b[j] == 0x74 || b[j] == 0x66 || b[j] == 0x6E then
      (match ReadLiteral(b, j, if b[j] == 0x74 then True else if b[j] == 0x66 then False else Null)
       case Stuck => Stuck case Got(l, e) => Got(Lit(l), e))
    else if b[j] == MINUS || IsDigit(b[j]) then
      (match ReadNumber(b, j) case Stuck => Stuck case Got(num, e) => Got(Num(num), e))
    else Stuck
  }

  /** Reads white space and then one value nested at most `n` containers deep. */
  function ReadValue(b: Bytes, i: nat, n: nat): (r: Parsed<Value>)
    requires i <= |b|
    ensures r.Got? ==> i < r.end <= |b|
    decreases |b| - i, 0
  {
    var j := SkipWs(b, i);
    if j >= |b| then Stuck
    else if b[j] == LBRACE || b[j] == LBRACKET then
      if n == 0 then Stuck
      else
        var isObject := b[j] == LBRACE;
        var k := SkipWs(b, j + 1);
        if k < |b| && b[k] == Closer(isObject) then Got(Empty(isObject, b[j + 1..k]), k + 1)
        else
          match ReadEntries(b, j + 1, isObject, n - 1)
          case Stuck => Stuck
          case Got(es, e) => Got(Container(isObject, es), e)
    else ReadScalar(b, j)
  }

  /** Reads `key :`, or nothing inside an array. */
  function ReadKey(b: Bytes, i: nat, isObject: bool): (r: Parsed<Option<Key>>)
    requires i <= |b|
    ensures r.Got? ==> i <= r.end <= |b|
  {
    if !isObject then Got(None, i)
    else
      var j := SkipWs(b, i);
      match ReadString(b, j)
      case Stuck => Stuck
      case Got(items, k) =>
        var c := SkipWs(b, k);
        if c < |b| && b[c] == COLON then Got(Some(Key(b[i..j], items, b[k..c])), c + 1) else Stuck
  }

  /** Reads a member or element and the white space around its value. */
  function ReadEntry(b: Bytes, i: nat, isObject: bool, n: nat): (r: Parsed<Entry>)
    requires i <= |b|
    ensures r.Got? ==> i < r.end <= |b|
    decreases |b| - i, 1
  {
    match ReadKey(b, i, isObject)
    case Stuck => Stuck
    case Got(key, p) =>
      match ReadValue(b, p, n)
      case Stuck => Stuck
      case Got(v, q) =>
        var s := SkipWs(b, q);
        Got(Entry(key, b[p..SkipWs(b, p)], v, b[q..s]), s)
  }

  /** Reads members or elements up to and including the closing bracket. */
  function ReadEntries(b: Bytes, i: nat, isObject: bool, n: nat): (r: Parsed<Entries>)
    requires i <= |b|
    ensures r.Got? ==> i < r.end <= |b|
    decreases |b| - i, 2
  {
    match ReadEntry(b, i, isObject, n)
    case Stuck => Stuck
    case Got(e, s) =>
      if s < |b| && b[s] == Closer(isObject) then Got(Last(e), s + 1)
      else if s < |b| && b[s] == COMMA then
        match ReadEntries(b, s + 1, isObject, n)
        case Stuck => Stuck
        case Got(rest, end) => Got(More(e, rest), end)
      else Stuck
  }

  // ---------------------------------------------------------------- where a text occurs

  lemma AtItem(b: Bytes, i: nat, it: Item)
    ensures At(b, i, ItemText(it)) <==>
      match it
      case Raw(c) => i < |b| && b[i] == c
      case Short(e) => i + 1 < |b| && b[i] == BACKSLASH && b[i + 1] == e
      case Unicode(h0, h1, h2, h3) =>
        && i + 5 < |b| && b[i] == BACKSLASH && b[i + 1] == LOWER_U
        && b[i + 2] == h0 && b[i + 3] == h1 && b[i + 4] == h2 && b[i + 5] == h3
  {
    var t := ItemText(it);
    assert t[0] == if it.Raw? then it.c else BACKSLASH;
    if it.Short? { assert t[1] == it.e; }
    if it.Unicode? {
      assert t[1] == LOWER_U && t[2] == it.h0 && t[3] == it.h1 && t[4] == it.h2 && t[5] == it.h3;
    }
  }

  lemma AtBody(b: Bytes, i: nat, items: seq<Item>)
    requires items != []
    ensures At(b, i, Body(items) + [QUOTE])
       <==> At(b, i, ItemText(items[0])) && At(b, i + |ItemText(items[0])|, Body(items[1..]) + [QUOTE])
  {
    hide At;
    assert Body(items) + [QUOTE] == ItemText(items[0]) + (Body(items[1..]) + [QUOTE]);
    AtConcat(b, i, ItemText(items[0]), Body(items[1..]) + [QUOTE]);
  }

  lemma AtString(b: Bytes, i: nat, items: seq<Item>)
    ensures At(b, i, StringText(items)) <==> i < |b| && b[i] == QUOTE && At(b, i + 1, Body(items) + [QUOTE])
  {
    hide At;
    assert StringText(items) == [QUOTE] + (Body(items) + [QUOTE]);
    AtConcat(b, i, [QUOTE], Body(items) + [QUOTE]);
    AtOne(b, i, QUOTE);
  }

  function SignText(neg: bool): Bytes { if neg then [MINUS] else [] }

  lemma AtNumber(b: Bytes, i: nat, n: Number)
    ensures At(b, i, NumberText(n)) <==>
      var p := i + |SignText(n.neg)|;
      var q := p + |n.whole|;
      && At(b, i, SignText(n.neg)) && At(b, p, n.whole)
      && At(b, q, FracText(n.frac)) && At(b, q + |FracText(n.frac)|, ExpText(n.exp))
  {
    hide At;
    var tail := FracText(n.frac) + ExpText(n.exp);
    AtConcat3(b, i, SignText(n.neg), n.whole, tail);
    AtConcat(b, i + |SignText(n.neg)| + |n.whole|, FracText(n.frac), ExpText(n.exp));
  }

  lemma AtFrac(b: Bytes, q: nat, digits: Bytes)
    ensures At(b, q, FracText(Some(digits))) <==> q < |b| && b[q] == DOT && At(b, q + 1, digits)
  {
    hide At;
    AtConcat(b, q, [DOT], digits);
    AtOne(b, q, DOT);
  }

  function ExpSign(x: Exponent): Bytes { if x.sign.Some? then [x.sign.value] else [] }

  lemma AtExp(b: Bytes, f: nat, x: Exponent)
    ensures At(b, f, ExpText(Some(x))) <==>
      && f < |b| && b[f] == x.mark && At(b, f + 1, ExpSign(x)) && At(b, f + 1 + |ExpSign(x)|, x.digits)
  {
    hide At;
    AtConcat3(b, f, [x.mark], ExpSign(x), x.digits);
    AtOne(b, f, x.mark);
  }

  lemma AtEmpty(b: Bytes, i: nat, isObject: bool, ws: Bytes)
    ensures At(b, i, Text(Empty(isObject, ws))) <==>
      var e := i + 1 + |ws|;
      i < |b| && b[i] == Opener(isObject) && At(b, i + 1, ws) && e < |b| && b[e] == Closer(isObject)
  {
    hide At;
    AtConcat3(b, i, [Opener(isObject)], ws, [Closer(isObject)]);
    AtOne(b, i, Opener(isObject));
    AtOne(b, i + 1 + |ws|, Closer(isObject));
  }

  lemma AtContainer(b: Bytes, i: nat, isObject: bool, es: Entries)
    ensures At(b, i, Text(Container(isObject, es)))
       <==> i < |b| && b[i] == Opener(isObject) && At(b, i + 1, EntriesText(es) + [Closer(isObject)])
  {
    hide At;
    AtConcat(b, i, [Opener(isObject)], EntriesText(es) + [Closer(isObject)]);
    AtOne(b, i, Opener(isObject));
  }

  lemma AtKey(b: Bytes, i: nat, k: Key)
    ensures At(b, i, KeyText(Some(k))) <==>
      var j := i + |k.pre|;
      var m := j + |StringText(k.items)|;
      && At(b, i, k.pre) && At(b, j, StringText(k.items)) && At(b, m, k.post)
      && m + |k.post| < |b| && b[m + |k.post|] == COLON
  {
    hide At;
    AtConcat3(b, i, k.pre, StringText(k.items), k.post + [COLON]);
    AtConcat(b, i + |k.pre| + |StringText(k.items)|, k.post, [COLON]);
    AtOne(b, i + |k.pre| + |StringText(k.items)| + |k.post|, COLON);
  }

  lemma AtEntry(b: Bytes, i: nat, e: Entry)
    ensures At(b, i, EntryText(e)) <==>
      var p := i + |KeyText(e.key)|;
      var m := p + |e.pre|;
      At(b, i, KeyText(e.key)) && At(b, p, e.pre) && At(b, m, Text(e.v)) && At(b, m + |Text(e.v)|, e.post)
  {
    hide At;
    AtConcat3(b, i, KeyText(e.key), e.pre, Text(e.v) + e.post);
    AtConcat(b, i + |KeyText(e.key)| + |e.pre|, Text(e.v), e.post);
  }

  lemma AtLast(b: Bytes, i: nat, e: Entry, close: Byte)
    ensures At(b, i, EntriesText(Last(e)) + [close])
       <==> At(b, i, EntryText(e)) && i + |EntryText(e)| < |b| && b[i + |EntryText(e)|] == close
  {
    hide At;
    AtConcat(b, i, EntryText(e), [close]);
    AtOne(b, i + |EntryText(e)|, close);
  }

  lemma AtMore(b: Bytes, i: nat, e: Entry, rest: Entries, close: Byte)
    ensures At(b, i, EntriesText(More(e, rest)) + [close]) <==>
      var s := i + |EntryText(e)|;
      At(b, i, EntryText(e)) && s < |b| && b[s] == COMMA && At(b, s + 1, EntriesText(rest) + [close])
  {
    hide At;
    assert EntriesText(More(e, rest)) + [close] == EntryText(e) + ([COMMA] + (EntriesText(rest) + [close]));
    AtConcat3(b, i, EntryText(e), [COMMA], EntriesText(rest) + [close]);
    AtOne(b, i + |EntryText(e)|, COMMA);
  }

  // ---------------------------------------------------------------- soundness

  lemma {:induction false} SoundItems(b: Bytes, i: nat)
    requires i <= |b| && ReadItems(b, i).Got?
    ensures var Got(items, j) := ReadItems(b, i);
            ItemsOk(items) && At(b, i, Body(items) + [QUOTE]) && j == i + |Body(items)| + 1
    decreases |b| - i
  {
    hide At;
    var Got(items, k) := ReadItems(b, i);
    if b[i] == QUOTE {
      AtOne(b, i, QUOTE);
      assert Body([]) + [QUOTE] == [QUOTE];
    } else {
      var Got(it, j) := ReadItem(b, i);
      SoundItems(b, j);
      assert items[0] == it && items[1..] == ReadItems(b, j).value;
      AtItem(b, i, it);
      AtBody(b, i, items);
    }
  }

  lemma SoundString(b: Bytes, i: nat)
    requires i <= |b| && ReadString(b, i).Got?
    ensures var Got(items, j) := ReadString(b, i);
            ItemsOk(items) && At(b, i, StringText(items)) && j == i + |StringText(items)|
  {
    hide At;
    SoundItems(b, i + 1);
    AtString(b, i, ReadString(b, i).value);
  }

  predicate FracOk(frac: Option<Bytes>) { frac.Some? ==> frac.value != [] && AllDigits(frac.value) }

  lemma SoundFrac(b: Bytes, q: nat)
    requires q <= |b| && ReadFrac(b, q).Got?
    ensures var Got(frac, f) := ReadFrac(b, q);
            && FracOk(frac) && At(b, q, FracText(frac)) && f == q + |FracText(frac)|
            && (f < |b| ==> if frac.Some? then !IsDigit(b[f]) else b[f] != DOT) && (frac.None? ==> f == q)
  {
    var Got(frac, f) := ReadFrac(b, q);
    if frac.Some? {
      AtSlice(b, q + 1, frac.value);
      AtFrac(b, q, frac.value);
    }
  }

  lemma SoundExp(b: Bytes, f: nat)
    requires f <= |b| && ReadExp(b, f).Got?
    ensures var Got(exp, x) := ReadExp(b, f);
            && (exp.Some? ==> ExponentOk(exp.value)) && At(b, f, ExpText(exp)) && x == f + |ExpText(exp)|
            && (x < |b| ==> if exp.Some? then !IsDigit(b[x]) else b[x] != 0x65 && b[x] != 0x45)
            && (exp.None? ==> x == f)
  {
    var Got(exp, x) := ReadExp(b, f);
    if exp.Some? {
      if exp.value.sign.Some? { AtOne(b, f + 1, exp.value.sign.value); }
      AtSlice(b, f + 1 + |ExpSign(exp.value)|, exp.value.digits);
      AtExp(b, f, exp.value);
    }
  }

  /** A byte that would extend the number: the reader takes the longest number it can. */
  predicate Extends(n: Number, c: Byte) {
    || (IsDigit(c) && (n.exp.Some? || n.frac.Some? || (n.whole != [] && n.whole[0] != ZERO)))
    || (c == DOT && n.frac.None? && n.exp.None?)
    || ((c == 0x65 || c == 0x45) && n.exp.None?)
  }

  /** The value could end at `e`. */
  predicate EndsAt(v: Value, b: Bytes, e: nat) { v.Num? && e < |b| ==> !Extends(v.num, b[e]) }

  lemma WholePart(b: Bytes, p: nat, q: nat, whole: Bytes)
    requires p < q <= |b| && whole == b[p..q]
    ensures At(b, p, whole) && whole[0] == b[p] && whole == [b[p]] + b[p + 1..q]
  {
    AtSlice(b, p, whole);
  }

  lemma SoundNumber(b: Bytes, i: nat)
    requires i <= |b| && ReadNumber(b, i).Got?
    ensures var Got(n, j) := ReadNumber(b, i);
            NumberOk(n) && At(b, i, NumberText(n)) && j == i + |NumberText(n)| && EndsAt(Num(n), b, j)
  {
    hide At, ReadFrac, ReadExp, FracText, ExpText;
    var Got(n, j) := ReadNumber(b, i);
    var p := i + |SignText(n.neg)|;
    var q := p + |n.whole|;
    if n.neg { AtOne(b, i, MINUS); } else { AtEmptyText(b, i); }
    WholePart(b, p, q, n.whole);
    SoundFrac(b, q);
    SoundExp(b, q + |FracText(n.frac)|);
    AtNumber(b, i, n);
  }

  lemma SoundKey(b: Bytes, i: nat, isObject: bool)
    requires i <= |b| && ReadKey(b, i, isObject).Got?
    ensures var Got(key, p) := ReadKey(b, i, isObject); KeyAt(b, i, p, key, isObject)
  {
    hide At, ReadString, StringText;
    if isObject {
      var k := ReadKey(b, i, isObject).value.value;
      var j := SkipWs(b, i);
      SoundString(b, j);
      AtSlice(b, i, k.pre);
      AtSlice(b, j + |StringText(k.items)|, k.post);
      AtKey(b, i, k);
    } else {
      AtEmptyText(b, i);
    }
  }

  /** The text of `v`, nested at most `n` deep and extended by no following byte, is at `i..e`. */
  ghost predicate ValueAt(b: Bytes, i: nat, e: nat, v: Value, n: nat) {
    ValueOk(v) && Depth(v) <= n && EndsAt(v, b, e) && At(b, i, Text(v)) && e == i + |Text(v)|
  }

  ghost predicate KeyAt(b: Bytes, i: nat, p: nat, key: Option<Key>, isObject: bool) {
    && (key.Some? <==> isObject) && (key.Some? ==> KeyOk(key.value))
    && At(b, i, KeyText(key)) && p == i + |KeyText(key)|
  }

  ghost predicate EntryAt(b: Bytes, i: nat, s: nat, e: Entry, isObject: bool, n: nat) {
    EntryOk(e, isObject) && Depth(e.v) <= n && At(b, i, EntryText(e)) && s == i + |EntryText(e)|
  }

  /** The text of `es` and the closing bracket are at `i..e`. */
  ghost predicate EntriesAt(b: Bytes, i: nat, e: nat, es: Entries, isObject: bool, n: nat) {
    && EntriesOk(es, isObject) && EntriesDepth(es) <= n
    && At(b, i, EntriesText(es) + [Closer(isObject)]) && e == i + |EntriesText(es)| + 1
  }

  /** What the reader accepts is white space followed by the text of the tree it returns. */
  lemma {:induction false} SoundValue(b: Bytes, i: nat, n: nat)
    requires i <= |b| && ReadValue(b, i, n).Got?
    ensures var Got(v, e) := ReadValue(b, i, n); ValueAt(b, SkipWs(b, i), e, v, n)
    decreases |b| - i, 0
  {
    hide At, EntriesText, ReadScalar, ReadEntries;
    var j := SkipWs(b, i);
    var Got(v, e) := ReadValue(b, i, n);
    match v
    case Container(isObject, es) =>
      SoundEntries(b, j + 1, isObject, n - 1);
      AtContainer(b, j, isObject, es);
    case Empty(isObject, ws) =>
      AtSlice(b, j + 1, ws);
      AtEmpty(b, j, isObject, ws);
    case _ => SoundScalar(b, j, n);
  }

  lemma SoundScalar(b: Bytes, j: nat, n: nat)
    requires j < |b| && ReadScalar(b, j).Got?
    ensures var Got(v, e) := ReadScalar(b, j); ValueAt(b, j, e, v, n)
  {
    hide At, StringText, NumberText, ReadString, ReadNumber, SkipWs;
    match ReadScalar(b, j).value
    case Str(_) => SoundString(b, j);
    case Num(_) => SoundNumber(b, j);
    case Lit(l) => AtSlice(b, j, LiteralText(l));
  }

  lemma {:induction false} SoundEntry(b: Bytes, i: nat, isObject: bool, n: nat)
    requires i <= |b| && ReadEntry(b, i, isObject, n).Got?
    ensures var Got(e, s) := ReadEntry(b, i, isObject, n); EntryAt(b, i, s, e, isObject, n)
    decreases |b| - i, 1
  {
    hide At, ReadKey, ReadValue, KeyText, Text;
    var e := ReadEntry(b, i, isObject, n).value;
    var p := ReadKey(b, i, isObject).end;
    SoundKey(b, i, isObject);
    SoundValue(b, p, n);
    AtSlice(b, p, e.pre);
    AtSlice(b, ReadValue(b, p, n).end, e.post);
    AtEntry(b, i, e);
  }

  lemma {:induction false} SoundEntries(b: Bytes, i: nat, isObject: bool, n: nat)
    requires i <= |b| && ReadEntries(b, i, isObject, n).Got?
    ensures var Got(es, e) := ReadEntries(b, i, isObject, n); EntriesAt(b, i, e, es, isObject, n)
    decreases |b| - i, 2
  {
    hide At, ReadEntry, EntryText, SkipWs, EntryOk, Depth;
    SoundEntry(b, i, isObject, n);
    match ReadEntries(b, i, isObject, n).value
    case Last(e) =>
      AtLast(b, i, e, Closer(isObject));
    case More(e, rest) =>
      SoundEntries(b, i + |EntryText(e)| + 1, isObject, n);
      AtMore(b, i, e, rest, Closer(isObject));
  }

  // ---------------------------------------------------------------- completeness

  lemma {:induction false} WsRun(b: Bytes, i: nat, w: Bytes)
    requires At(b, i, w) && AllWs(w) && (i + |w| < |b| ==> !IsWs(b[i + |w|]))
    ensures SkipWs(b, i) == i + |w|
    decreases |w|
  {
    hide At;
    if w == [] {
      AtEmptyText(b, i);
    } else {
      AtHead(b, i, w);
      WsRun(b, i + 1, w[1..]);
    }
  }

  lemma {:induction false} DigitRun(b: Bytes, i: nat, w: Bytes)
    requires At(b, i, w) && AllDigits(w) && (i + |w| < |b| ==> !IsDigit(b[i + |w|]))
    ensures SkipDigits(b, i) == i + |w|
    decreases |w|
  {
    hide At;
    if w == [] {
      AtEmptyText(b, i);
    } else {
      AtHead(b, i, w);
      DigitRun(b, i + 1, w[1..]);
    }
  }

  lemma {:induction false} CompleteItems(b: Bytes, i: nat, items: seq<Item>)
    requires ItemsOk(items) && At(b, i, Body(items) + [QUOTE])
    ensures ReadItems(b, i) == Got(items, i + |Body(items)| + 1)
    decreases items
  {
    hide At;
    if items == [] {
      assert Body(items) + [QUOTE] == [QUOTE];
      AtOne(b, i, QUOTE);
    } else {
      var it, rest := items[0], items[1..];
      AtBody(b, i, items);
      CompleteItem(b, i, it);
      CompleteItems(b, i + |ItemText(it)|, rest);
      assert [it] + rest == items;
    }
  }

  lemma CompleteItem(b: Bytes, i: nat, it: Item)
    requires ItemOk(it) && At(b, i, ItemText(it))
    ensures i < |b| && b[i] != QUOTE && ReadItem(b, i) == Got(it, i + |ItemText(it)|)
  {
    hide At;
    AtItem(b, i, it);
  }

  lemma CompleteString(b: Bytes, i: nat, items: seq<Item>)
    requires ItemsOk(items) && At(b, i, StringText(items))
    ensures i < |b| && b[i] == QUOTE && ReadString(b, i) == Got(items, i + |StringText(items)|)
  {
    hide At;
    AtString(b, i, items);
    CompleteItems(b, i + 1, items);
  }

  lemma CompleteFrac(b: Bytes, q: nat, frac: Option<Bytes>)
    requires At(b, q, FracText(frac)) && FracOk(frac)
    requires var f := q + |FracText(frac)|; f < |b| ==> if frac.Some? then !IsDigit(b[f]) else b[f] != DOT
    ensures ReadFrac(b, q) == Got(frac, q + |FracText(frac)|)
  {
    hide At;
    if frac.Some? {
      AtFrac(b, q, frac.value);
      DigitRun(b, q + 1, frac.value);
      AtSlice(b, q + 1, frac.value);
    } else {
      AtEmptyText(b, q);
    }
  }

  lemma CompleteExp(b: Bytes, f: nat, exp: Option<Exponent>)
    requires At(b, f, ExpText(exp)) && (exp.Some? ==> ExponentOk(exp.value))
    requires var x := f + |ExpText(exp)|;
             x < |b| ==> if exp.Some? then !IsDigit(b[x]) else b[x] != 0x65 && b[x] != 0x45
    ensures ReadExp(b, f) == Got(exp, f + |ExpText(exp)|)
  {
    hide At;
    if exp.Some? {
      var x := exp.value;
      AtExp(b, f, x);
      var g := f + 1 + |ExpSign(x)|;
      if x.sign.Some? { AtOne(b, f + 1, x.sign.value); }
      AtHead(b, g, x.digits);
      DigitRun(b, g, x.digits);
      AtSlice(b, g, x.digits);
    } else {
      AtEmptyText(b, f);
    }
  }

  lemma CompleteNumber(b: Bytes, i: nat, n: Number)
    requires NumberOk(n) && At(b, i, NumberText(n)) && EndsAt(Num(n), b, i + |NumberText(n)|)
    ensures i < |b| && (b[i] == MINUS || IsDigit(b[i])) && ReadNumber(b, i) == Got(n, i + |NumberText(n)|)
  {
    hide At, ReadFrac, ReadExp, FracText, ExpText, SkipDigits;
    AtNumber(b, i, n);
    var p := i + |SignText(n.neg)|;
    var q := p + |n.whole|;
    var f := q + |FracText(n.frac)|;
    if n.neg { AtOne(b, i, MINUS); }
    FracStart(b, q, n.frac);
    ExpStart(b, f, n.exp);
    CompleteWhole(b, p, n.whole);
    CompleteFrac(b, q, n.frac);
    CompleteExp(b, f, n.exp);
  }

  lemma FracStart(b: Bytes, q: nat, frac: Option<Bytes>)
    requires At(b, q, FracText(frac))
    ensures if frac.Some? then q < |b| && b[q] == DOT else FracText(frac) == []
  {
    if frac.Some? { AtFrac(b, q, frac.value); }
  }

  lemma ExpStart(b: Bytes, f: nat, exp: Option<Exponent>)
    requires At(b, f, ExpText(exp))
    ensures if exp.Some? then f < |b| && b[f] == exp.value.mark else ExpText(exp) == []
  {
    if exp.Some? { AtExp(b, f, exp.value); }
  }

  lemma CompleteWhole(b: Bytes, p: nat, whole: Bytes)
    requires whole != [] && AllDigits(whole) && (whole[0] == ZERO ==> |whole| == 1) && At(b, p, whole)
    requires p + |whole| < |b| && whole[0] != ZERO ==> !IsDigit(b[p + |whole|])
    ensures p < |b| && b[p] == whole[0] && IsDigit(b[p]) && p + |whole| <= |b| && b[p..p + |whole|] == whole
    ensures (if b[p] == ZERO then p + 1 else SkipDigits(b, p + 1)) == p + |whole|
  {
    hide At;
    AtSlice(b, p, whole);
    AtHead(b, p, whole);
    if whole[0] != ZERO { DigitRun(b, p + 1, whole[1..]); }
  }

  /** The first byte of a value's text. */
  lemma TextStart(v: Value)
    requires ValueOk(v)
    ensures Text(v) != []
    ensures var c := Text(v)[0];
            && !IsWs(c) && c != RBRACE && c != RBRACKET
            && ((c == LBRACE || c == LBRACKET) <==> v.Empty? || v.Container?)
            && (v.Empty? || v.Container? ==> c == Opener(v.isObject))
  {
    if v.Num? {
      assert IsDigit(v.num.whole[0]);
      assert Text(v)[0] == if v.num.neg then MINUS else v.num.whole[0];
    }
  }

  /** The text of every well-formed tree of depth at most `n` is read back to that very tree. */
  lemma {:induction false} CompleteValue(b: Bytes, i: nat, e: nat, v: Value, n: nat)
    requires ValueAt(b, i, e, v, n)
    ensures i < |b| && b[i] == Text(v)[0] && SkipWs(b, i) == i && ReadValue(b, i, n) == Got(v, e)
    decreases v
  {
    hide At, EntriesText, ReadScalar, ReadEntries;
    TextStart(v);
    AtHead(b, i, Text(v));
    match v
    case Container(isObject, es) =>
      AtContainer(b, i, isObject, es);
      CompleteEntries(b, i + 1, e, es, isObject, n - 1);
    case Empty(isObject, ws) =>
      AtEmpty(b, i, isObject, ws);
      WsRun(b, i + 1, ws);
      AtSlice(b, i + 1, ws);
    case _ => CompleteScalar(b, i, e, v, n);
  }

  lemma CompleteScalar(b: Bytes, i: nat, e: nat, v: Value, n: nat)
    requires ValueAt(b, i, e, v, n) && (v.Str? || v.Num? || v.Lit?)
    ensures i < |b| && ReadScalar(b, i) == Got(v, e)
  {
    hide At, ReadString, ReadNumber, StringText, NumberText;
    match v
    case Str(items) => CompleteString(b, i, items);
    case Num(num) => CompleteNumber(b, i, num);
    case Lit(l) =>
      AtHead(b, i, LiteralText(l));
      AtSlice(b, i, LiteralText(l));
  }

  lemma CompleteKey(b: Bytes, i: nat, p: nat, key: Option<Key>, isObject: bool)
    requires KeyAt(b, i, p, key, isObject)
    ensures i <= |b| && ReadKey(b, i, isObject) == Got(key, p)
    ensures if isObject then SkipWs(b, i) < |b| && b[SkipWs(b, i)] == QUOTE else p == i
  {
    hide At, SkipWs;
    if isObject {
      CompleteMemberKey(b, i, p, key.value);
    } else {
      AtEmptyText(b, i);
    }
  }

  lemma CompleteMemberKey(b: Bytes, i: nat, p: nat, k: Key)
    requires KeyOk(k) && At(b, i, KeyText(Some(k))) && p == i + |KeyText(Some(k))|
    ensures i <= |b| && ReadKey(b, i, true) == Got(Some(k), p)
    ensures SkipWs(b, i) < |b| && b[SkipWs(b, i)] == QUOTE
  {
    hide At, ReadString, StringText, SkipWs;
    AtKey(b, i, k);
    var j := i + |k.pre|;
    CompleteString(b, j, k.items);
    WsRun(b, i, k.pre);
    AtSlice(b, i, k.pre);
    var m := j + |StringText(k.items)|;
    WsRun(b, m, k.post);
    AtSlice(b, m, k.post);
  }

  lemma {:induction false} CompleteEntry(b: Bytes, i: nat, s: nat, e: Entry, isObject: bool, n: nat)
    requires EntryAt(b, i, s, e, isObject, n) && s < |b| && (b[s] == COMMA || b[s] == Closer(isObject))
    ensures ReadEntry(b, i, isObject, n) == Got(e, s)
    ensures SkipWs(b, i) < |b| && b[SkipWs(b, i)] != Closer(isObject)
    decreases e
  {
    hide At, ReadKey, ReadValue, KeyText, Text, SkipWs;
    AtEntry(b, i, e);
    var p := i + |KeyText(e.key)|;
    var m := p + |e.pre|;
    var q := m + |Text(e.v)|;
    if e.post != [] { AtHead(b, q, e.post); }
    CompleteKey(b, i, p, e.key, isObject);
    CompleteValue(b, m, q, e.v, n);
    TextStart(e.v);
    WsRun(b, p, e.pre);
    SkipWsTwice(b, p, n);
    WsRun(b, q, e.post);
    AtSlice(b, p, e.pre);
    AtSlice(b, q, e.post);
  }

  /** Also: the first byte after white space is not the closing bracket, so this is no empty container. */
  lemma {:induction false} CompleteEntries(b: Bytes, i: nat, end: nat, es: Entries, isObject: bool, n: nat)
    requires EntriesAt(b, i, end, es, isObject, n)
    ensures i <= |b| && ReadEntries(b, i, isObject, n) == Got(es, end)
    ensures SkipWs(b, i) < |b| && b[SkipWs(b, i)] != Closer(isObject)
    decreases es
  {
    hide At, ReadEntry, EntryText, SkipWs, EntryOk, Depth;
    var e := es.e;
    var s := i + |EntryText(e)|;
    match es
    case Last(_) =>
      AtLast(b, i, e, Closer(isObject));
      CompleteEntry(b, i, s, e, isObject, n);
    case More(_, rest) =>
      AtMore(b, i, e, rest, Closer(isObject));
      CompleteEntry(b, i, s, e, isObject, n);
      CompleteEntries(b, s + 1, end, rest, isObject, n);
  }

  /** Leading white space does not matter to the value reader. */
  lemma SkipWsTwice(b: Bytes, i: nat, n: nat)
    requires i <= |b|
    ensures SkipWs(b, SkipWs(b, i)) == SkipWs(b, i)
    ensures ReadValue(b, SkipWs(b, i), n) == ReadValue(b, i, n)
  {
    hide ReadScalar, ReadEntries;
  }

  /** The reader recognises exactly the grammar: white space `w`, then the text of `v`. */
  lemma ReaderIsGrammar(b: Bytes, i: nat, n: nat, v: Value, e: nat)
    requires i <= |b|
    ensures ReadValue(b, i, n) == Got(v, e)
       <==> exists w :: AllWs(w) && At(b, i, w) && ValueAt(b, i + |w|, e, v, n)
  {
    hide At, ReadValue, ValueAt, Text;
    if ReadValue(b, i, n) == Got(v, e) {
      SoundValue(b, i, n);
      AtSlice(b, i, b[i..SkipWs(b, i)]);
    }
    if w :| AllWs(w) && At(b, i, w) && ValueAt(b, i + |w|, e, v, n) {
      CompleteGrammar(b, i, e, w, v, n);
    }
  }

  lemma CompleteGrammar(b: Bytes, i: nat, e: nat, w: Bytes, v: Value, n: nat)
    requires AllWs(w) && At(b, i, w) && ValueAt(b, i + |w|, e, v, n)
    ensures i <= |b| && ReadValue(b, i, n) == Got(v, e)
  {
    hide At, ReadValue, Text;
    CompleteValue(b, i + |w|, e, v, n);
    TextStart(v);
    WsRun(b, i, w);
    SkipWsTwice(b, i, n);
  }
}
