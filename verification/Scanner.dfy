/**
  The iterative scanner itself: a cursor moved forward by every method, an explicit 16-slot stack of
  open containers instead of recursion, and output buffers grown byte by byte. Each method is tied to
  the recursive reader; `Unwind` says what the open containers still have to read.
*/
module Scanner {
  import opened Base
  import opened Json
  import opened JsonStrings
  import opened ClientDataJson
  import Utf8

  /** The offset at which a reading ends, if it succeeds. */
  function EndOf<T>(p: Parsed<T>): Option<nat> {
    match p case Stuck => None case Got(_, e) => Some(e)
  }

  // ---------------------------------------------------------------- what the stack stands for

  /** Where a container ends when one of its values has just ended at `i`. */
  function RestEnd(b: Bytes, i: nat, isObject: bool, n: nat): (r: Option<nat>)
    requires i <= |b|
    ensures r.Some? ==> r.value <= |b|
  {
    var s := SkipWs(b, i);
    if s >= |b| then None
    else if b[s] == Closer(isObject) then Some(s + 1)
    else if b[s] == COMMA then EndOf(ReadEntries(b, s + 1, isObject, n))
    else None
  }

  /** Where the outermost value ends when a value has just ended at `i` inside the containers `stack`. */
  function Unwind(b: Bytes, stack: Bytes, i: nat): (r: Option<nat>)
    requires i <= |b| && |stack| <= MAX_JSON_DEPTH
    ensures r.Some? ==> r.value <= |b|
    decreases |stack|
  {
    if stack == [] then Some(i)
    else
      var top := |stack| - 1;
      match RestEnd(b, i, stack[top] == LBRACE, MAX_JSON_DEPTH - |stack|)
      case None => None
      case Some(j) => Unwind(b, stack[..top], j)
  }

  /** Where the outermost value ends when a value is expected at `i` inside the containers `stack`. */
  function Resume(b: Bytes, stack: Bytes, i: nat): Option<nat>
    requires i <= |b| && |stack| <= MAX_JSON_DEPTH
  {
    match ReadValue(b, i, MAX_JSON_DEPTH - |stack|)
    case Stuck => None
    case Got(_, e) => Unwind(b, stack, e)
  }

  /** Where a container ends when the value of its next entry is expected at `k`. */
  function FirstEnd(b: Bytes, k: nat, isObject: bool, n: nat): (r: Option<nat>)
    requires k <= |b|
    ensures r.Some? ==> r.value <= |b|
  {
    match EndOf(ReadValue(b, k, n))
    case None => None
    case Some(q) => RestEnd(b, q, isObject, n)
  }

  lemma EntriesEnd(b: Bytes, i: nat, isObject: bool, n: nat)
    requires i <= |b|
    ensures EndOf(ReadEntries(b, i, isObject, n)) ==
            match EndOf(ReadKey(b, i, isObject))
            case None => None
            case Some(k) => FirstEnd(b, k, isObject, n)
  {
    hide ReadKey, ReadValue, SkipWs;
  }

  lemma KeyAfterWs(b: Bytes, i: nat)
    requires i <= |b|
    ensures EndOf(ReadKey(b, SkipWs(b, i), true)) == EndOf(ReadKey(b, i, true))
  {
    hide ReadString;
    SkipWsTwice(b, i, 0);
  }

  /** Opening a non-empty container pushes it: its first value is read one level deeper. */
  lemma OpenStep(b: Bytes, stack: Bytes, i: nat)
    requires i <= |b| && |stack| < MAX_JSON_DEPTH
    requires var j := SkipWs(b, i); j < |b| && (b[j] == LBRACE || b[j] == LBRACKET)
    ensures var j := SkipWs(b, i);
            var isObject := b[j] == LBRACE;
            var k := SkipWs(b, j + 1);
            Resume(b, stack, i) ==
            if k < |b| && b[k] == Closer(isObject) then Unwind(b, stack, k + 1)
            else match EndOf(ReadKey(b, k, isObject))
                 case None => None
                 case Some(p) => Resume(b, stack + [b[j]], p)
  {
    hide ReadKey, ReadEntries, ReadScalar, SkipWs, RestEnd, FirstEnd;
    var j := SkipWs(b, i);
    var isObject := b[j] == LBRACE;
    var k := SkipWs(b, j + 1);
    assert (stack + [b[j]])[..|stack|] == stack;
    EntriesAfterWs(b, j + 1, isObject, MAX_JSON_DEPTH - |stack| - 1);
    match EndOf(ReadKey(b, k, isObject))
    case None =>
    case Some(p) => PushedEnd(b, stack, b[j], p);
  }

  lemma EntriesAfterWs(b: Bytes, i: nat, isObject: bool, n: nat)
    requires i <= |b|
    ensures EndOf(ReadEntries(b, i, isObject, n)) ==
            match EndOf(ReadKey(b, SkipWs(b, i), isObject))
            case None => None
            case Some(p) => FirstEnd(b, p, isObject, n)
  {
    hide ReadKey, ReadValue, ReadEntries, SkipWs;
    EntriesEnd(b, i, isObject, n);
    if isObject {
      KeyAfterWs(b, i);
    } else {
      SkipWsTwice(b, i, n);
      ArrayKey(b, i);
      ArrayKey(b, SkipWs(b, i));
    }
  }

  lemma PushedEnd(b: Bytes, stack: Bytes, opener: Byte, p: nat)
    requires p <= |b| && |stack| < MAX_JSON_DEPTH
    ensures Resume(b, stack + [opener], p) ==
            match FirstEnd(b, p, opener == LBRACE, MAX_JSON_DEPTH - |stack| - 1)
            case None => None
            case Some(e) => Unwind(b, stack, e)
  {
    hide ReadValue, RestEnd;
    assert (stack + [opener])[..|stack|] == stack;
  }

  lemma ArrayKey(b: Bytes, i: nat)
    requires i <= |b|
    ensures ReadKey(b, i, false) == Got(None, i)
  {
  }

  /** Nothing can follow an opening bracket at the end of the input. */
  lemma KeyNeedsByte(b: Bytes, i: nat, isObject: bool, stack: Bytes)
    requires i == |b| && |stack| <= MAX_JSON_DEPTH
    ensures match EndOf(ReadKey(b, i, isObject))
            case None => true
            case Some(p) => Resume(b, stack, p) == None
  {
  }

  /** A comma inside a container asks for another member or element of it. */
  lemma CommaStep(b: Bytes, stack: Bytes, i: nat)
    requires i <= |b| && 0 < |stack| <= MAX_JSON_DEPTH
    requires var s := SkipWs(b, i); s < |b| && b[s] == COMMA
    ensures var s := SkipWs(b, i);
            var isObject := stack[|stack| - 1] == LBRACE;
            Unwind(b, stack, i) ==
            match EndOf(ReadKey(b, s + 1, isObject))
            case None => None
            case Some(p) => Resume(b, stack, p)
  {
    hide ReadKey, ReadValue, ReadEntries, SkipWs;
    var s := SkipWs(b, i);
    var isObject := stack[|stack| - 1] == LBRACE;
    EntriesEnd(b, s + 1, isObject, MAX_JSON_DEPTH - |stack|);
  }

  /** Anything but a container leaves the stack alone. */
  lemma ScalarStep(b: Bytes, stack: Bytes, i: nat)
    requires i <= |b| && |stack| <= MAX_JSON_DEPTH
    requires var j := SkipWs(b, i); j < |b| ==> b[j] != LBRACE && b[j] != LBRACKET
    ensures Resume(b, stack, i) ==
            if SkipWs(b, i) >= |b| then None
            else match EndOf(ReadScalar(b, SkipWs(b, i)))
                 case None => None
                 case Some(e) => Unwind(b, stack, e)
  {
    hide ReadScalar, Unwind, SkipWs;
  }

  /** Without open containers the value is the outermost one; with too many, it must not open another. */
  lemma StackEnds(b: Bytes, stack: Bytes, i: nat)
    requires i <= |b| && |stack| <= MAX_JSON_DEPTH
    ensures stack == [] ==> Resume(b, stack, i) == EndOf(ReadValue(b, i, MAX_JSON_DEPTH))
    ensures stack == [] ==> Unwind(b, stack, i) == Some(i)
    ensures (var j := SkipWs(b, i);
             |stack| == MAX_JSON_DEPTH && j < |b| && (b[j] == LBRACE || b[j] == LBRACKET)) ==>
              Resume(b, stack, i) == None
  {
    hide ReadScalar, ReadEntries, SkipWs;
  }

  /** A closing bracket pops; any other byte but a comma is an error. */
  lemma CloseStep(b: Bytes, stack: Bytes, i: nat)
    requires i <= |b| && 0 < |stack| <= MAX_JSON_DEPTH
    ensures var s := SkipWs(b, i);
            var top := |stack| - 1;
            && (s >= |b| ==> Unwind(b, stack, i) == None)
            && (s < |b| && b[s] == Closer(stack[top] == LBRACE) ==>
                  Unwind(b, stack, i) == Unwind(b, stack[..top], s + 1))
            && (s < |b| && b[s] != Closer(stack[top] == LBRACE) && b[s] != COMMA ==> Unwind(b, stack, i) == None)
  {
    hide ReadEntries, SkipWs;
  }

  // ---------------------------------------------------------------- what a string buffer stands for

  /** The decoded rest of a string body. */
  function DecodeRest(b: Bytes, i: nat): (r: Parsed<Bytes>)
    requires i <= |b|
    ensures r.Got? ==> i < r.end <= |b|
  {
    match ReadItems(b, i)
    case Stuck => Stuck
    case Got(items, j) => match Decode(items) case None => Stuck case Some(t) => Got(t, j)
  }

  /** One step of the validating loop. */
  lemma ItemStep(b: Bytes, i: nat)
    requires i <= |b|
    ensures EndOf(ReadItems(b, i)) ==
            if i < |b| && b[i] == QUOTE then Some(i + 1)
            else match ReadItem(b, i) case Stuck => None case Got(_, j) => EndOf(ReadItems(b, j))
  {
    hide ReadItem;
  }

  function Prepend(out: Bytes, p: Parsed<Bytes>): Parsed<Bytes> {
    match p case Stuck => Stuck case Got(t, e) => Got(out + t, e)
  }

  /** One step of the decoding loop. */
  lemma DecodeStep(b: Bytes, i: nat)
    requires i <= |b|
    ensures DecodeRest(b, i) ==
            if i < |b| && b[i] == QUOTE then Got([], i + 1)
            else match ReadItem(b, i)
                 case Stuck => Stuck
                 case Got(it, j) => match DecodeItem(it) case None => Stuck case Some(t) => Prepend(t, DecodeRest(b, j))
  {
    hide ReadItem, DecodeItem;
    match ReadItem(b, i)
    case Stuck =>
    case Got(it, j) =>
      match ReadItems(b, j)
      case Stuck =>
      case Got(items, _) => assert ([it] + items)[1..] == items;
  }

  lemma PrependTwice(out: Bytes, t: Bytes, p: Parsed<Bytes>)
    ensures Prepend(out, Prepend(t, p)) == Prepend(out + t, p)
  {
    if p.Got? { assert out + (t + p.value) == (out + t) + p.value; }
  }

  /** The value of the first `n` of the hexadecimal digits at `i`, most significant first. */
  function HexPrefix(b: Bytes, i: nat, n: nat): int
    requires i + n <= |b| && forall k :: i <= k < i + n ==> IsHex(b[k])
  {
    if n == 0 then 0 else HexPrefix(b, i, n - 1) * 16 + HexValue(b[i + n - 1])
  }

  lemma HexPrefixFour(b: Bytes, i: nat)
    requires HexAt(b, i)
    ensures forall k :: i <= k < i + 4 ==> IsHex(b[k])
    ensures HexPrefix(b, i, 4) == CodeUnit(b[i], b[i + 1], b[i + 2], b[i + 3])
  {
    assert HexPrefix(b, i, 1) == HexValue(b[i]);
    assert HexPrefix(b, i, 2) == HexValue(b[i]) * 16 + HexValue(b[i + 1]);
    assert HexPrefix(b, i, 3) == HexPrefix(b, i, 2) * 16 + HexValue(b[i + 2]);
  }

  /** Four digits of the code unit stand at `i`. */
  predicate UnitAt(b: Bytes, i: nat, cp: int) {
    i + 4 <= |b| && PrintsUnit(b[i], b[i + 1], b[i + 2], b[i + 3], cp)
  }

  lemma UnitIsRead(b: Bytes, i: nat)
    ensures HexAt(b, i) <==> exists cp :: UnitAt(b, i, cp)
    ensures forall cp :: UnitAt(b, i, cp) ==> HexAt(b, i) && CodeUnit(b[i], b[i + 1], b[i + 2], b[i + 3]) == cp
  {
    hide IsHex, PrintsUnit, CodeUnit;
    if HexAt(b, i) {
      UnitIsPrinted(b[i], b[i + 1], b[i + 2], b[i + 3], CodeUnit(b[i], b[i + 1], b[i + 2], b[i + 3]));
      assert UnitAt(b, i, CodeUnit(b[i], b[i + 1], b[i + 2], b[i + 3]));
    }
    forall cp | UnitAt(b, i, cp) ensures HexAt(b, i) && CodeUnit(b[i], b[i + 1], b[i + 2], b[i + 3]) == cp {
      UnitIsPrinted(b[i], b[i + 1], b[i + 2], b[i + 3], cp);
    }
  }

  /** A text stands at `i`, spelled in this way and quoted. */
  ghost predicate SpelledAt(b: Bytes, i: nat, sps: seq<Spelled>) {
    AllSpelledOk(sps) && At(b, i, StringText(Spellings(sps)))
  }

  lemma SpelledIsRead(b: Bytes, i: nat, sps: seq<Spelled>)
    requires i <= |b| && SpelledAt(b, i, sps)
    ensures DecodeString(b, i) == Got(Utf8.EncodeAll(Meanings(sps)), i + |StringText(Spellings(sps))|)
  {
    hide At, ReadString, StringText, Decode;
    SpellingsDecode(sps);
    CompleteString(b, i, Spellings(sps));
  }

  class Scanner {
    const b: Bytes
    var i: nat

    constructor (b: Bytes)
      ensures this.b == b && i == 0 && Valid()
    {
      this.b := b;
      i := 0;
    }

    ghost predicate Valid()
      reads this
    {
      i <= |b|
    }

    method Peek() returns (r: Result<Byte>)
      requires Valid()
      ensures r == if i < |b| then Ok(b[i]) else Err(ClientDataMalformed)
    {
      return if i < |b| then Ok(b[i]) else Err(ClientDataMalformed);
    }

    method Bump() returns (r: Result<Byte>)
      requires Valid()
      modifies this
      ensures Valid()
      ensures if old(i) < |b| then r == Ok(b[old(i)]) && i == old(i) + 1 else r == Err(ClientDataMalformed)
    {
      var c :- Peek();
      i := i + 1;
      return Ok(c);
    }

    method Expect(want: Byte) returns (r: Result<()>)
      requires Valid()
      modifies this
      ensures Valid() && (r.Ok? <==> old(i) < |b| && b[old(i)] == want)
      ensures if r.Ok? then i == old(i) + 1 else r == Err(ClientDataMalformed)
    {
      var c :- Bump();
      return if c == want then Ok(()) else Err(ClientDataMalformed);
    }

    method SkipWs()
      requires Valid()
      modifies this
      ensures Valid() && i == Json.SkipWs(b, old(i))
    {
      while i < |b| && IsWs(b[i])
        invariant Valid() && Json.SkipWs(b, i) == Json.SkipWs(b, old(i))
      {
        i := i + 1;
      }
    }

    /** Decodes a string starting at the opening quotation mark. */
    method ParseString() returns (r: Result<Bytes>)
      requires Valid()
      modifies this
      ensures Valid()
      ensures match DecodeString(b, old(i))
              case Stuck => r == Err(ClientDataMalformed)
              case Got(t, e) => r == Ok(t) && i == e
      ensures forall sps {:trigger SpelledAt(b, old(i), sps)} :: SpelledAt(b, old(i), sps) ==>
                r == Ok(Utf8.EncodeAll(Meanings(sps))) && i == old(i) + |StringText(Spellings(sps))|
    {
      hide ReadItems, IsHex, CodeUnit, ShortEscape, Utf8.Encode, SpelledAt, StringText, Utf8.EncodeAll, Meanings, Spellings;
      forall sps | SpelledAt(b, i, sps)
        ensures DecodeString(b, i) == Got(Utf8.EncodeAll(Meanings(sps)), i + |StringText(Spellings(sps))|)
      {
        SpelledIsRead(b, i, sps);
      }
      var _ :- Expect(QUOTE);
      var out: Bytes := [];
      ghost var start := i;
      assert DecodeString(b, old(i)) == DecodeRest(b, start);
      assert Prepend([], DecodeRest(b, start)) == DecodeRest(b, start) by {
        if DecodeRest(b, start).Got? { assert [] + DecodeRest(b, start).value == DecodeRest(b, start).value; }
      }
      while true
        invariant Valid() && DecodeRest(b, start) == Prepend(out, DecodeRest(b, i))
        decreases |b| - i
      {
        DecodeStep(b, i);
        ghost var at := i;
        var c :- Bump();
        if c == QUOTE {
          assert out + [] == out;
          return Ok(out);
        }
        var t: Bytes;
        if c == BACKSLASH {
          var e :- Bump();
          if IsShortEscape(e) {
            t := [ShortEscape(e)];
          } else if e == LOWER_U {
            var cp :- Hex4();
            if Utf8.IsSurrogate(cp) { return Err(ClientDataMalformed); }
            t := Utf8.Encode(cp);
          } else {
            return Err(ClientDataMalformed);
          }
        } else if c < 0x20 {
          return Err(ClientDataMalformed);
        } else {
          t := [c];
        }
        PrependTwice(out, t, DecodeRest(b, i));
        out := out + t;
      }
    }

    /** Validates, without decoding, a string starting at the opening quotation mark. */
    method ValidateString() returns (r: Result<()>)
      requires Valid()
      modifies this
      ensures Valid()
      ensures match ReadString(b, old(i))
              case Stuck => r == Err(ClientDataMalformed)
              case Got(_, e) => r.Ok? && i == e
    {
      hide ReadItems, IsHex;
      var _ :- Expect(QUOTE);
      ghost var start := i;
      while true
        invariant Valid() && EndOf(ReadItems(b, start)) == EndOf(ReadItems(b, i))
        decreases |b| - i
      {
        ItemStep(b, i);
        var c :- Bump();
        if c == QUOTE { return Ok(()); }
        if c == BACKSLASH {
          var e :- Bump();
          if IsShortEscape(e) {
          } else if e == LOWER_U {
            var _ :- Hex4();
          } else {
            return Err(ClientDataMalformed);
          }
        } else if c < 0x20 {
          return Err(ClientDataMalformed);
        }
      }
    }

    method Hex4() returns (r: Result<int>)
      requires Valid()
      modifies this
      ensures Valid()
      ensures if HexAt(b, old(i))
              then r == Ok(CodeUnit(b[old(i)], b[old(i) + 1], b[old(i) + 2], b[old(i) + 3])) && i == old(i) + 4
              else r == Err(ClientDataMalformed)
      ensures r.Ok? <==> exists cp :: UnitAt(b, old(i), cp)
      ensures forall cp :: UnitAt(b, old(i), cp) ==> r == Ok(cp)
    {
      hide PrintsUnit, CodeUnit;
      UnitIsRead(b, i);
      var v := 0;
      for n := 0 to 4
        invariant Valid() && i == old(i) + n && forall k :: old(i) <= k < i ==> IsHex(b[k])
        invariant v == HexPrefix(b, old(i), n)
      {
        var c :- Bump();
        if !IsHex(c) { return Err(ClientDataMalformed); }
        v := v * 16 + HexValue(c);
      }
      HexPrefixFour(b, old(i));
      return Ok(v);
    }

    method ExpectLiteral(lit: Bytes) returns (r: Result<()>)
      requires Valid()
      modifies this
      ensures Valid() && (r.Ok? <==> old(i) + |lit| <= |b| && b[old(i)..old(i) + |lit|] == lit)
      ensures if r.Ok? then i == old(i) + |lit| else r == Err(ClientDataMalformed)
    {
      for n := 0 to |lit|
        invariant Valid() && i == old(i) + n && b[old(i)..i] == lit[..n]
      {
        var c :- Bump();
        if c != lit[n] {
          assert old(i) + |lit| <= |b| ==> b[old(i)..old(i) + |lit|][n] == c;
          return Err(ClientDataMalformed);
        }
        assert b[old(i)..i] == b[old(i)..i - 1] + [c];
        assert lit[..n + 1] == lit[..n] + [c];
      }
      return Ok(());
    }

    method SkipDigits()
      requires Valid()
      modifies this
      ensures Valid() && i == Json.SkipDigits(b, old(i))
    {
      while i < |b| && IsDigit(b[i])
        invariant Valid() && Json.SkipDigits(b, i) == Json.SkipDigits(b, old(i))
      {
        i := i + 1;
      }
    }

    /** `-?(0|[1-9][0-9]*)(\.[0-9]+)?([eE][+-]?[0-9]+)?`; the optional parts have methods of their own. */
    method ValidateNumber() returns (r: Result<()>)
      requires Valid()
      modifies this
      ensures Valid()
      ensures match ReadNumber(b, old(i))
              case Stuck => r == Err(ClientDataMalformed)
              case Got(_, e) => r.Ok? && i == e
    {
      hide Json.SkipDigits, ReadFrac, ReadExp;
      if i < |b| && b[i] == MINUS { i := i + 1; }
      var c :- Bump();
      if !IsDigit(c) { return Err(ClientDataMalformed); }
      if c != ZERO { SkipDigits(); }
      var _ :- ValidateFraction();
      r := ValidateExponent();
    }

    method ValidateFraction() returns (r: Result<()>)
      requires Valid()
      modifies this
      ensures Valid()
      ensures match ReadFrac(b, old(i))
              case Stuck => r == Err(ClientDataMalformed)
              case Got(_, e) => r.Ok? && i == e
    {
      if i < |b| && b[i] == DOT {
        i := i + 1;
        if !(i < |b| && IsDigit(b[i])) { return Err(ClientDataMalformed); }
        SkipDigits();
      }
      return Ok(());
    }

    method ValidateExponent() returns (r: Result<()>)
      requires Valid()
      modifies this
      ensures Valid()
      ensures match ReadExp(b, old(i))
              case Stuck => r == Err(ClientDataMalformed)
              case Got(_, e) => r.Ok? && i == e
    {
      if i < |b| && (b[i] == 0x65 || b[i] == 0x45) {
        i := i + 1;
        if i < |b| && (b[i] == PLUS || b[i] == MINUS) { i := i + 1; }
        if !(i < |b| && IsDigit(b[i])) { return Err(ClientDataMalformed); }
        SkipDigits();
      }
      return Ok(());
    }

    /** The key, quotation marks included, and the colon of an object member. */
    method MemberKeyAndColon() returns (r: Result<()>)
      requires Valid()
      modifies this
      ensures Valid()
      ensures match ReadKey(b, old(i), true)
              case Stuck => r == Err(ClientDataMalformed)
              case Got(_, e) => r.Ok? && i == e
    {
      SkipWs();
      var c :- Peek();
      if c != QUOTE { return Err(ClientDataMalformed); }
      var _ :- ValidateString();
      SkipWs();
      var _ :- Expect(COLON);
      return Ok(());
    }

    method ValidateScalar(c: Byte) returns (r: Result<()>)
      requires Valid() && i < |b| && c == b[i]
      modifies this
      ensures Valid()
      ensures match ReadScalar(b, old(i))
              case Stuck => r == Err(ClientDataMalformed)
              case Got(_, e) => r.Ok? && i == e
    {
      if c == QUOTE { r := ValidateString(); }
      else if c == 0x74 { r := ExpectLiteral(TRUE); }
      else if c == 0x66 { r := ExpectLiteral(FALSE); }
      else if c == 0x6E { r := ExpectLiteral(NULL); }
      else if c == MINUS || IsDigit(c) { r := ValidateNumber(); }
      else { r := Err(ClientDataMalformed); }
    }

    /**
      The inner loop of `SkipValue`, run when a value has just ended: closes containers until one of
      them continues with a comma, and returns how many are still open.
    */
    method CloseOrComma(stack: array<Byte>, depth0: nat, ghost goal: Option<nat>) returns (r: Result<nat>)
      requires Valid() && depth0 <= stack.Length == MAX_JSON_DEPTH
      requires goal == Unwind(b, stack[..depth0], i)
      modifies this
      ensures Valid() && (r.Ok? ==> old(i) <= i)
      ensures r.Err? ==> r == Err(ClientDataMalformed) && goal == None
      ensures r == Ok(0) ==> goal == Some(i)
      ensures r.Ok? && r.value > 0 ==>
                r.value <= depth0 && i > old(i) && goal == Resume(b, stack[..r.value], i)
    {
      hide Json.SkipWs, ReadKey, Resume, Unwind;
      var depth: nat := depth0;
      while true
        invariant Valid() && depth <= depth0 && old(i) <= i
        invariant goal == Unwind(b, stack[..depth], i)
        decreases |b| - i
      {
        StackEnds(b, stack[..depth], i);
        if depth == 0 { return Ok(0); }
        var top := depth - 1;
        CloseStep(b, stack[..depth], i);
        ghost var ended := i;
        SkipWs();
        var opener := stack[top];
        var close := if opener == LBRACE then RBRACE else RBRACKET;
        var d :- Bump();
        assert stack[..depth][..top] == stack[..top];
        if d == close {
          depth := top;
          continue;
        }
        if d != COMMA { return Err(ClientDataMalformed); }
        CommaStep(b, stack[..depth], ended);
        if opener == LBRACE {
          var _ :- MemberKeyAndColon();
        } else {
          ArrayKey(b, i);
        }
        return Ok(depth);
      }
    }

    /**
      Opens the container whose bracket is at the cursor. The result says how many containers are open
      now, and whether a value has just ended because the container is empty.
    */
    method OpenContainer(stack: array<Byte>, depth0: nat, c: Byte, ghost at: nat) returns (r: Result<(nat, bool)>)
      requires Valid() && depth0 <= stack.Length == MAX_JSON_DEPTH
      requires at <= i < |b| && i == Json.SkipWs(b, at) && b[i] == c && (c == LBRACE || c == LBRACKET)
      modifies this, stack
      ensures Valid() && (r.Ok? ==> old(i) < i)
      ensures var goal := Resume(b, old(stack[..depth0]), at);
              match r
              case Err(e) => e == ClientDataMalformed && goal == None
              case Ok((depth, ended)) =>
                && depth <= MAX_JSON_DEPTH
                && goal == if ended then Unwind(b, stack[..depth], i) else Resume(b, stack[..depth], i)
    {
      hide Json.SkipWs, ReadKey, Resume, Unwind;
      StackEnds(b, stack[..depth0], at);
      if depth0 >= MAX_JSON_DEPTH { return Err(ClientDataMalformed); }
      OpenStep(b, stack[..depth0], at);
      stack[depth0] := c;
      assert stack[..depth0] == old(stack[..depth0]);
      assert stack[..depth0 + 1] == stack[..depth0] + [c];
      i := i + 1;
      SkipWs();
      var close := if c == LBRACE then RBRACE else RBRACKET;
      if i >= |b| { KeyNeedsByte(b, i, c == LBRACE, stack[..depth0 + 1]); }
      var d :- Peek();
      if d == close {
        i := i + 1;
        return Ok((depth0, true));
      }
      if c == LBRACE {
        var _ :- MemberKeyAndColon();
      } else {
        ArrayKey(b, i);
      }
      return Ok((depth0 + 1, false));
    }

    /**
      Consumes one whole value with an explicit stack: accepts the same inputs and ends at the same
      offset as the recursive reader with a nesting budget of 16.
    */
    method SkipValue() returns (r: Result<()>)
      requires Valid()
      modifies this
      ensures Valid()
      ensures match ReadValue(b, old(i), MAX_JSON_DEPTH)
              case Stuck => r == Err(ClientDataMalformed)
              case Got(_, e) => r.Ok? && i == e
    {
      hide Json.SkipWs, ReadValue, ReadScalar, Resume, Unwind;
      var stack := new Byte[MAX_JSON_DEPTH](_ => 0);
      var depth: nat := 0;
      ghost var goal := EndOf(ReadValue(b, i, MAX_JSON_DEPTH));
      StackEnds(b, stack[..depth], i);
      while true
        invariant Valid() && depth <= MAX_JSON_DEPTH && fresh(stack)
        invariant goal == Resume(b, stack[..depth], i)
        decreases |b| - i
      {
        ghost var at := i;
        SkipWs();
        if i >= |b| { ScalarStep(b, stack[..depth], at); }
        var c :- Peek();
        if c == LBRACE || c == LBRACKET {
          var step :- OpenContainer(stack, depth, c, at);
          depth := step.0;
          if !step.1 { continue; }
        } else {
          ScalarStep(b, stack[..depth], at);
          var _ :- ValidateScalar(c);
        }
        depth :- CloseOrComma(stack, depth, goal);
        if depth == 0 { return Ok(()); }
      }
    }

    method ParseBool() returns (r: Result<bool>)
      requires Valid()
      modifies this
      ensures Valid()
      ensures match ReadBool(b, old(i))
              case Stuck => r == Err(ClientDataMalformed)
              case Got(x, e) => r == Ok(x) && i == e
    {
      var c :- Peek();
      if c == 0x74 {
        var _ :- ExpectLiteral(TRUE);
        return Ok(true);
      } else if c == 0x66 {
        var _ :- ExpectLiteral(FALSE);
        return Ok(false);
      }
      return Err(ClientDataMalformed);
    }

    /** The value under `key`, stored in its field or skipped. */
    method ParseMember(key: Bytes, f: Fields) returns (r: Result<Fields>)
      requires Valid()
      modifies this
      ensures Valid()
      ensures match ReadMember(b, old(i), key, f)
              case Fails(e) => r == Err(e)
              case Scanned(f', e) => r == Ok(f') && i == e
    {
      if key == TYPE_KEY {
        var v :- ParseString();
        return Ok(f.(typ := Some(v)));
      } else if key == CHALLENGE_KEY {
        var v :- ParseString();
        if !IsB64UrlNoPad(v) { return Err(ClientDataMalformed); }
        return Ok(f.(challenge := Some(v)));
      } else if key == ORIGIN_KEY {
        var v :- ParseString();
        return Ok(f.(origin := Some(v)));
      } else if key == CROSS_KEY {
        var x :- ParseBool();
        return Ok(f.(cross := Some(x)));
      } else {
        var _ :- SkipValue();
        return Ok(f);
      }
    }
  }

  /** What the top-level loop still has to read at `i`. */
  function TopLoop(b: Bytes, i: nat, first: bool, seen: seq<Bytes>, f: Fields): Scan<Fields>
    requires i <= |b|
  {
    if first then ReadStrictObject(b, i) else ReadStrictRest(b, i, seen, f)
  }

  lemma TopStep(b: Bytes, i: nat, first: bool, seen: seq<Bytes>, f: Fields)
    requires i <= |b| && (first ==> seen == [] && f == NO_FIELDS)
    ensures var s := SkipWs(b, i);
            TopLoop(b, i, first, seen, f) ==
            if s >= |b| then Fails(ClientDataMalformed)
            else if b[s] == RBRACE then Scanned(f, s + 1)
            else if first then ReadStrict(b, s, seen, f)
            else if b[s] == COMMA then ReadStrict(b, SkipWs(b, s + 1), seen, f)
            else Fails(ClientDataMalformed)
  {
    hide ReadStrictMember;
    var s := SkipWs(b, i);
    StrictAfterWs(b, i, seen, f);
    if s < |b| { StrictAfterWs(b, s + 1, seen, f); } else { StrictNeedsByte(b, i, seen, f); }
  }

  lemma StrictNeedsByte(b: Bytes, i: nat, seen: seq<Bytes>, f: Fields)
    requires i <= |b| && SkipWs(b, i) == |b|
    ensures ReadStrictMember(b, i, seen, f) == Fails(ClientDataMalformed)
  {
  }

  lemma MemberStep(b: Bytes, i: nat, seen: seq<Bytes>, f: Fields)
    requires i <= |b|
    ensures ReadStrict(b, i, seen, f) ==
            match ReadStrictMember(b, i, seen, f)
            case Fails(e) => Fails(e)
            case Scanned(m, e) => TopLoop(b, e, false, seen + [m.0], m.1)
  {
    hide ReadStrictMember;
  }

  /** White space before a member does not matter to the strict reader. */
  lemma StrictAfterWs(b: Bytes, i: nat, seen: seq<Bytes>, f: Fields)
    requires i <= |b|
    ensures SkipWs(b, SkipWs(b, i)) == SkipWs(b, i)
    ensures ReadStrictMember(b, SkipWs(b, i), seen, f) == ReadStrictMember(b, i, seen, f)
    ensures ReadStrict(b, SkipWs(b, i), seen, f) == ReadStrict(b, i, seen, f)
  {
    hide DecodeString, ReadMember, ReadStrictRest;
    SkipWsTwice(b, i, 0);
  }

  /** `parse_strict`: the top-level loop with its duplicate check. */
  method ParseStrict(cdj: Bytes) returns (r: Result<ClientData>)
    ensures r == ClientDataJson.ParseStrict(cdj)
  {
    hide SkipWs, ReadStrictObject, Finish, Utf8.Valid;
    if |cdj| > MAX_CLIENT_DATA_LEN { return Err(ClientDataTooLong); }
    if !Utf8.Valid(cdj) { return Err(ClientDataMalformed); }
    var s := new Scanner(cdj);
    s.SkipWs();
    var _ :- s.Expect(LBRACE);
    var f :- ParseMembers(s);
    s.SkipWs();
    if s.i != |cdj| { return Err(ClientDataMalformed); }
    return Finish(f);
  }

  /** The top-level loop: members up to and including the closing brace. */
  method ParseMembers(s: Scanner) returns (r: Result<Fields>)
    requires s.Valid()
    modifies s
    ensures s.Valid()
    ensures match ReadStrictObject(s.b, old(s.i))
            case Fails(e) => r == Err(e)
            case Scanned(f, e) => r == Ok(f) && s.i == e
  {
    hide SkipWs, ReadStrictMember, ReadStrict, ReadStrictObject, TopLoop;
    var f := NO_FIELDS;
    var seen: seq<Bytes> := [];
    var first := true;
    ghost var goal := ReadStrictObject(s.b, s.i);
    TopStart(s.b, s.i);
    while true
      invariant s.Valid()
      invariant first ==> seen == [] && f == NO_FIELDS
      invariant goal == TopLoop(s.b, s.i, first, seen, f)
      decreases |s.b| - s.i
    {
      TopStep(s.b, s.i, first, seen, f);
      StrictAfterWs(s.b, s.i, seen, f);
      s.SkipWs();
      var c :- s.Peek();
      if c == RBRACE {
        s.i := s.i + 1;
        return Ok(f);
      }
      if !first {
        var _ :- s.Expect(COMMA);
        StrictAfterWs(s.b, s.i, seen, f);
        s.SkipWs();
      }
      first := false;
      MemberStep(s.b, s.i, seen, f);
      var member :- ParseKeyAndMember(s, seen, f);
      f := member.1;
      seen := seen + [member.0];
    }
  }

  lemma TopStart(b: Bytes, i: nat)
    requires i <= |b|
    ensures ReadStrictObject(b, i) == TopLoop(b, i, true, [], NO_FIELDS)
  {
  }

  /** One round of the top-level loop: a fresh key, a colon and the value under the key. */
  method ParseKeyAndMember(s: Scanner, seen: seq<Bytes>, f: Fields) returns (r: Result<(Bytes, Fields)>)
    requires s.Valid() && SkipWs(s.b, s.i) == s.i
    modifies s
    ensures s.Valid()
    ensures match ReadStrictMember(s.b, old(s.i), seen, f)
            case Fails(e) => r == Err(e)
            case Scanned(m, e) => r == Ok(m) && s.i == e && e > old(s.i)
  {
    hide SkipWs, DecodeString, ReadMember;
    var key :- s.ParseString();
    if key in seen { return Err(ClientDataDuplicateKey); }
    s.SkipWs();
    var _ :- s.Expect(COLON);
    s.SkipWs();
    var f' :- s.ParseMember(key, f);
    return Ok((key, f'));
  }
}
