/**
  The strict reading of `clientDataJSON`: one top-level object, distinct decoded keys, decoded
  depth-0 values. `ParseStrict` follows the scanner's control flow; `ParseStrictIsStrict` shows that
  it accepts exactly the documents described by `Strict` and returns exactly what `Surfaces` says.
*/
module ClientDataJson {
  import opened Base
  import opened Json
  import opened JsonStrings
  import Utf8

  const MAX_CLIENT_DATA_LEN: nat := 512
  const MAX_JSON_DEPTH: nat := 16

  // "type", "challenge", "origin", "crossOrigin"
  const TYPE_KEY: Bytes := [0x74, 0x79, 0x70, 0x65]
  const CHALLENGE_KEY: Bytes := [0x63, 0x68, 0x61, 0x6C, 0x6C, 0x65, 0x6E, 0x67, 0x65]
  const ORIGIN_KEY: Bytes := [0x6F, 0x72, 0x69, 0x67, 0x69, 0x6E]
  const CROSS_KEY: Bytes := [0x63, 0x72, 0x6F, 0x73, 0x73, 0x4F, 0x72, 0x69, 0x67, 0x69, 0x6E]

  datatype ClientData = ClientData(typ: Bytes, challenge: Bytes, origin: Bytes, crossOriginTrue: bool)

  /** The values collected so far. */
  datatype Fields = Fields(typ: Option<Bytes>, challenge: Option<Bytes>, origin: Option<Bytes>, cross: Option<bool>)

  const NO_FIELDS := Fields(None, None, None, None)

  datatype Scan<+T> = Fails(error: Error) | Scanned(value: T, end: nat)

  predicate IsB64UrlChar(c: Byte) {
    IsDigit(c) || 0x41 <= c <= 0x5A || 0x61 <= c <= 0x7A || c == 0x2D || c == 0x5F
  }

  predicate IsB64UrlNoPad(v: Bytes) { v != [] && forall k :: 0 <= k < |v| ==> IsB64UrlChar(v[k]) }

  // ---------------------------------------------------------------- the scanner's reading

  function DecodeString(b: Bytes, i: nat): (r: Parsed<Bytes>)
    requires i <= |b|
    ensures r.Got? ==> i < r.end <= |b|
  {
    match ReadString(b, i)
    case Stuck => Stuck
    case Got(items, j) => match Decode(items) case None => Stuck case Some(t) => Got(t, j)
  }

  function ReadBool(b: Bytes, i: nat): (r: Parsed<bool>)
    requires i <= |b|
    ensures r.Got? ==> i < r.end <= |b|
  {
    if i >= |b| then Stuck
    else if b[i] == 0x74 then
      (match ReadLiteral(b, i, True) case Stuck => Stuck case Got(_, e) => Got(true, e))
    else if b[i] == 0x66 then
      (match ReadLiteral(b, i, False) case Stuck => Stuck case Got(_, e) => Got(false, e))
    else Stuck
  }

  /** The value under `key`: decoded if the key is known, merely validated otherwise. */
  function ReadMember(b: Bytes, i: nat, key: Bytes, f: Fields): (r: Scan<Fields>)
    requires i <= |b|
    ensures r.Scanned? ==> i < r.end <= |b|
  {
    if key == TYPE_KEY || key == CHALLENGE_KEY || key == ORIGIN_KEY then
      match DecodeString(b, i)
      case Stuck => Fails(ClientDataMalformed)
      case Got(t, e) =>
        if key == TYPE_KEY then Scanned(f.(typ := Some(t)), e)
        else if key == ORIGIN_KEY then Scanned(f.(origin := Some(t)), e)
        else if IsB64UrlNoPad(t) then Scanned(f.(challenge := Some(t)), e)
        else Fails(ClientDataMalformed)
    else if key == CROSS_KEY then
      match ReadBool(b, i)
      case Stuck => Fails(ClientDataMalformed)
      case Got(x, e) => Scanned(f.(cross := Some(x)), e)
    else
      match ReadValue(b, i, MAX_JSON_DEPTH)
      case Stuck => Fails(ClientDataMalformed)
      case Got(_, e) => Scanned(f, e)
  }

  /** One depth-0 member; `seen` holds the decoded keys before it. */
  function ReadStrictMember(b: Bytes, i: nat, seen: seq<Bytes>, f: Fields): (r: Scan<(Bytes, Fields)>)
    requires i <= |b|
    ensures r.Scanned? ==> i < r.end <= |b|
  {
    match DecodeString(b, SkipWs(b, i))
    case Stuck => Fails(ClientDataMalformed)
    case Got(key, p) =>
      var q := SkipWs(b, p);
      if key in seen then Fails(ClientDataDuplicateKey)
      else if q >= |b| || b[q] != COLON then Fails(ClientDataMalformed)
      else
        match ReadMember(b, SkipWs(b, q + 1), key, f)
        case Fails(e) => Fails(e)
        case Scanned(f', e) => Scanned((key, f'), e)
  }

  /** Members up to and including the closing brace. */
  function ReadStrict(b: Bytes, i: nat, seen: seq<Bytes>, f: Fields): (r: Scan<Fields>)
    requires i <= |b|
    ensures r.Scanned? ==> i < r.end <= |b|
    decreases |b| - i, 1
  {
    match ReadStrictMember(b, i, seen, f)
    case Fails(e) => Fails(e)
    case Scanned((key, f'), e) => ReadStrictRest(b, e, seen + [key], f')
  }

  /** What follows a member: the closing brace, or a comma and more members. */
  function ReadStrictRest(b: Bytes, i: nat, seen: seq<Bytes>, f: Fields): (r: Scan<Fields>)
    requires i <= |b|
    ensures r.Scanned? ==> i < r.end <= |b|
    decreases |b| - i, 2
  {
    var s := SkipWs(b, i);
    if s >= |b| then Fails(ClientDataMalformed)
    else if b[s] == RBRACE then Scanned(f, s + 1)
    else if b[s] == COMMA then ReadStrict(b, s + 1, seen, f)
    else Fails(ClientDataMalformed)
  }

  /** Everything after the opening brace. */
  function ReadStrictObject(b: Bytes, i: nat): (r: Scan<Fields>)
    requires i <= |b|
    ensures r.Scanned? ==> i < r.end <= |b|
  {
    var s := SkipWs(b, i);
    if s < |b| && b[s] == RBRACE then Scanned(NO_FIELDS, s + 1) else ReadStrict(b, i, [], NO_FIELDS)
  }

  function Finish(f: Fields): Result<ClientData> {
    if f.typ.None? || f.challenge.None? || f.origin.None? then Err(ClientDataMissingKey)
    else Ok(ClientData(f.typ.value, f.challenge.value, f.origin.value, f.cross == Some(true)))
  }

  function ParseStrict(doc: Bytes): Result<ClientData> {
    var j := SkipWs(doc, 0);
    :- Require(|doc| <= MAX_CLIENT_DATA_LEN, ClientDataTooLong);
    :- Require(Utf8.Valid(doc), ClientDataMalformed);
    :- Require(j < |doc| && doc[j] == LBRACE, ClientDataMalformed);
    match ReadStrictObject(doc, j + 1)
    case Fails(e) => Err(e)
    case Scanned(f, e) =>
      :- Require(SkipWs(doc, e) == |doc|, ClientDataMalformed);
      Finish(f)
  }

  // ---------------------------------------------------------------- the strict documents

  datatype Document = Document(lead: Bytes, top: Value, trail: Bytes)

  function DocumentText(d: Document): Bytes { d.lead + (Text(d.top) + d.trail) }

  predicate DocumentOk(d: Document) {
    && AllWs(d.lead) && AllWs(d.trail) && ValueOk(d.top)
    && (d.top.Empty? || d.top.Container?) && d.top.isObject
  }

  /** The depth-0 members of the top-level object, in order. */
  function Members(top: Value): seq<Entry> {
    if top.Container? then ToSeq(top.entries) else []
  }

  function ToSeq(es: Entries): seq<Entry> {
    match es case Last(e) => [e] case More(e, rest) => [e] + ToSeq(rest)
  }

  function DecodedKey(e: Entry): Option<Bytes> {
    if e.key.None? then None else Decode(e.key.value.items)
  }

  function StringValue(v: Value): Option<Bytes> { if v.Str? then Decode(v.items) else None }

  predicate MemberOk(e: Entry) {
    && DecodedKey(e).Some?
    && var key := DecodedKey(e).value;
    && (key == TYPE_KEY || key == ORIGIN_KEY ==> StringValue(e.v).Some?)
    && (key == CHALLENGE_KEY ==> StringValue(e.v).Some? && IsB64UrlNoPad(StringValue(e.v).value))
    && (key == CROSS_KEY ==> e.v == Lit(True) || e.v == Lit(False))
  }

  /** Well-typed members with pairwise distinct decoded keys. */
  ghost predicate MembersOk(ms: seq<Entry>) {
    && (forall k :: 0 <= k < |ms| ==> MemberOk(ms[k]))
    && (forall j, k :: 0 <= j < k < |ms| ==> DecodedKey(ms[j]) != DecodedKey(ms[k]))
  }

  /** The documents the program means to accept. */
  ghost predicate Strict(d: Document) {
    && DocumentOk(d) && MembersOk(Members(d.top))
    && Depth(d.top) <= 1 + MAX_JSON_DEPTH
    && |DocumentText(d)| <= MAX_CLIENT_DATA_LEN && Utf8.Valid(DocumentText(d))
  }

  /** `e` is a depth-0 member under the decoded key `key`. */
  ghost predicate IsMember(ms: seq<Entry>, key: Bytes, e: Entry) { e in ms && DecodedKey(e) == Some(key) }

  /** The returned fields are the decoded values of depth-0 members. */
  ghost predicate Surfaces(ms: seq<Entry>, cd: ClientData) {
    && (exists e :: IsMember(ms, TYPE_KEY, e) && StringValue(e.v) == Some(cd.typ))
    && (exists e :: IsMember(ms, CHALLENGE_KEY, e) && StringValue(e.v) == Some(cd.challenge))
    && (exists e :: IsMember(ms, ORIGIN_KEY, e) && StringValue(e.v) == Some(cd.origin))
    && (cd.crossOriginTrue <==> exists e :: IsMember(ms, CROSS_KEY, e) && e.v == Lit(True))
  }

  // ---------------------------------------------------------------- collecting members

  function SetField(f: Fields, key: Bytes, v: Value): Option<Fields> {
    if key == TYPE_KEY || key == CHALLENGE_KEY || key == ORIGIN_KEY then
      match StringValue(v)
      case None => None
      case Some(t) =>
        if key == TYPE_KEY then Some(f.(typ := Some(t)))
        else if key == ORIGIN_KEY then Some(f.(origin := Some(t)))
        else if IsB64UrlNoPad(t) then Some(f.(challenge := Some(t)))
        else None
    else if key == CROSS_KEY then
      (if v == Lit(True) then Some(f.(cross := Some(true)))
       else if v == Lit(False) then Some(f.(cross := Some(false)))
       else None)
    else Some(f)
  }

  function Take(e: Entry, seen: seq<Bytes>, f: Fields): (r: Option<Fields>)
    ensures r.Some? ==> DecodedKey(e).Some? && DecodedKey(e).value !in seen
  {
    match DecodedKey(e)
    case None => None
    case Some(key) => if key in seen then None else SetField(f, key, e.v)
  }

  function Collect(ms: seq<Entry>, seen: seq<Bytes>, f: Fields): Option<Fields> {
    if ms == [] then Some(f)
    else
      match Take(ms[0], seen, f)
      case None => None
      case Some(f') => Collect(ms[1..], seen + [DecodedKey(ms[0]).value], f')
  }

  lemma MemberIsValue(b: Bytes, i: nat, key: Bytes, f: Fields)
    requires i <= |b| && SkipWs(b, i) == i
    ensures match ReadValue(b, i, MAX_JSON_DEPTH)
            case Stuck => ReadMember(b, i, key, f).Fails?
            case Got(v, e) =>
              match SetField(f, key, v)
              case None => ReadMember(b, i, key, f).Fails?
              case Some(f') => ReadMember(b, i, key, f) == Scanned(f', e)
  {
    hide SkipWs, ReadEntries, ReadItems, ReadNumber, Decode, IsB64UrlNoPad;
    if i < |b| && b[i] == QUOTE {
    } else if i < |b| && (b[i] == 0x74 || b[i] == 0x66) {
    }
  }

  /** The strict reader on one member, in terms of the generic reader. */
  lemma StrictMemberIsEntry(b: Bytes, i: nat, seen: seq<Bytes>, f: Fields)
    requires i <= |b|
    ensures match ReadEntry(b, i, true, MAX_JSON_DEPTH)
            case Stuck => ReadStrictMember(b, i, seen, f).Fails?
            case Got(e, s) =>
              match Take(e, seen, f)
              case None => ReadStrictMember(b, i, seen, f).Fails?
              case Some(f') =>
                && ReadStrictMember(b, i, seen, f).Scanned?
                && var Scanned(got, end) := ReadStrictMember(b, i, seen, f);
                && got == (DecodedKey(e).value, f') && SkipWs(b, end) == s
  {
    hide ReadValue, SkipWs, ReadMember, SetField, ReadString, Decode;
    match ReadKey(b, i, true)
    case Stuck =>
    case Got(key, p) =>
      var r := SkipWs(b, p);
      SkipWsTwice(b, p, MAX_JSON_DEPTH);
      match Decode(key.value.items)
      case None =>
      case Some(k) => MemberIsValue(b, r, k, f);
  }

  lemma CollectCons(e: Entry, rest: seq<Entry>, seen: seq<Bytes>, f: Fields)
    ensures Collect([e] + rest, seen, f) ==
            match Take(e, seen, f)
            case None => None
            case Some(f') => Collect(rest, seen + [DecodedKey(e).value], f')
  {
    assert ([e] + rest)[1..] == rest;
  }

  /** The strict reader on a member list, in terms of the generic reader and `Collect`. */
  lemma {:induction false} StrictIsGeneric(b: Bytes, i: nat, seen: seq<Bytes>, f: Fields)
    requires i <= |b|
    ensures match ReadEntries(b, i, true, MAX_JSON_DEPTH)
            case Stuck => ReadStrict(b, i, seen, f).Fails?
            case Got(es, e) =>
              match Collect(ToSeq(es), seen, f)
              case None => ReadStrict(b, i, seen, f).Fails?
              case Some(f') => ReadStrict(b, i, seen, f) == Scanned(f', e)
    decreases |b| - i
  {
    hide ReadEntry, ReadStrictMember, Take, SkipWs, Collect, DecodedKey;
    StrictMemberIsEntry(b, i, seen, f);
    match ReadEntry(b, i, true, MAX_JSON_DEPTH)
    case Stuck =>
    case Got(e, s) =>
      CollectCons(e, [], seen, f);
      assert ToSeq(Last(e)) == [e] + [];
      match Take(e, seen, f)
      case None =>
        forall rest ensures Collect([e] + ToSeq(rest), seen, f).None? { CollectCons(e, ToSeq(rest), seen, f); }
      case Some(f') =>
        var seen' := seen + [DecodedKey(e).value];
        CollectNil(seen', f');
        if s < |b| && b[s] == COMMA {
          StrictIsGeneric(b, s + 1, seen', f');
          match ReadEntries(b, s + 1, true, MAX_JSON_DEPTH)
          case Stuck =>
          case Got(rest, _) => CollectCons(e, ToSeq(rest), seen, f);
        }
  }

  lemma CollectNil(seen: seq<Bytes>, f: Fields)
    ensures Collect([], seen, f) == Some(f)
  {
  }

  /** The whole object, in terms of the generic reader at one level more. */
  lemma StrictObjectIsValue(b: Bytes, i: nat)
    requires i <= |b| && SkipWs(b, i) < |b| && b[SkipWs(b, i)] == LBRACE
    ensures var r := ReadStrictObject(b, SkipWs(b, i) + 1);
            match ReadValue(b, i, 1 + MAX_JSON_DEPTH)
            case Stuck => r.Fails?
            case Got(v, e) =>
              && (v.Empty? || v.Container?) && v.isObject
              && match Collect(Members(v), [], NO_FIELDS)
                 case None => r.Fails?
                 case Some(f) => r == Scanned(f, e)
  {
    hide ReadEntries, ReadStrict, SkipWs, Collect;
    CollectNil([], NO_FIELDS);
    StrictIsGeneric(b, SkipWs(b, i) + 1, [], NO_FIELDS);
  }

  // ---------------------------------------------------------------- what collecting means

  predicate IsKnown(key: Bytes) {
    key == TYPE_KEY || key == CHALLENGE_KEY || key == ORIGIN_KEY || key == CROSS_KEY
  }

  /** The value a member under a known key contributes; booleans are written as one byte. */
  function Contribution(key: Bytes, v: Value): Option<Bytes> {
    if key != CROSS_KEY then StringValue(v)
    else if v == Lit(True) then Some([1]) else if v == Lit(False) then Some([0]) else None
  }

  function FieldOf(f: Fields, key: Bytes): Option<Bytes>
    requires IsKnown(key)
  {
    if key == TYPE_KEY then f.typ
    else if key == CHALLENGE_KEY then f.challenge
    else if key == ORIGIN_KEY then f.origin
    else match f.cross case None => None case Some(x) => Some([if x then 1 else 0])
  }

  lemma TakeIsOk(e: Entry, seen: seq<Bytes>, f: Fields)
    ensures Take(e, seen, f).Some? <==> MemberOk(e) && DecodedKey(e).value !in seen
    ensures Take(e, seen, f).Some? ==> forall key | IsKnown(key) ::
              FieldOf(Take(e, seen, f).value, key) ==
              if DecodedKey(e) == Some(key) then Contribution(key, e.v) else FieldOf(f, key)
  {
    hide Decode, IsB64UrlNoPad;
  }

  /** Collecting succeeds exactly on well-typed members with fresh, pairwise distinct keys. */
  lemma {:induction false} CollectIsOk(ms: seq<Entry>, seen: seq<Bytes>, f: Fields)
    ensures Collect(ms, seen, f).Some?
       <==> MembersOk(ms) && forall k :: 0 <= k < |ms| ==> DecodedKey(ms[k]).value !in seen
  {
    hide Take, MemberOk, DecodedKey;
    if ms != [] {
      TakeIsOk(ms[0], seen, f);
      if Take(ms[0], seen, f).Some? {
        var key := DecodedKey(ms[0]).value;
        CollectIsOk(ms[1..], seen + [key], Take(ms[0], seen, f).value);
        MembersOkHead(ms, seen, key);
      }
    }
  }

  lemma MembersOkHead(ms: seq<Entry>, seen: seq<Bytes>, key: Bytes)
    requires ms != [] && MemberOk(ms[0]) && DecodedKey(ms[0]) == Some(key) && key !in seen
    ensures (MembersOk(ms[1..]) && forall k :: 0 <= k < |ms[1..]| ==> DecodedKey(ms[1..][k]).value !in seen + [key])
       <==> (MembersOk(ms) && forall k :: 0 <= k < |ms| ==> DecodedKey(ms[k]).value !in seen)
  {
    hide DecodedKey, MemberOk;
    var t := ms[1..];
    MemberKeys(ms);
    MemberKeys(t);
    assert forall k :: 1 <= k < |ms| ==> ms[k] == t[k - 1];
    assert forall k :: 0 <= k < |t| ==> t[k] == ms[k + 1];
  }

  lemma MemberKeys(ms: seq<Entry>)
    ensures forall k :: 0 <= k < |ms| && MemberOk(ms[k]) ==> DecodedKey(ms[k]).Some?
  {
  }

  /** Each known field ends up with the value of the one member under its key, if there is one. */
  lemma {:induction false} CollectFinds(ms: seq<Entry>, seen: seq<Bytes>, f: Fields, key: Bytes)
    requires IsKnown(key) && Collect(ms, seen, f).Some?
    ensures var f' := Collect(ms, seen, f).value;
            && (forall e :: IsMember(ms, key, e) ==> FieldOf(f', key) == Contribution(key, e.v))
            && ((forall e :: !IsMember(ms, key, e)) ==> FieldOf(f', key) == FieldOf(f, key))
            && (key in seen ==> forall e :: !IsMember(ms, key, e))
  {
    hide Take, DecodedKey, Contribution, FieldOf;
    if ms != [] {
      TakeIsOk(ms[0], seen, f);
      var key0 := DecodedKey(ms[0]).value;
      CollectFinds(ms[1..], seen + [key0], Take(ms[0], seen, f).value, key);
      var t := ms[1..];
      assert ms == [ms[0]] + t;
      forall e ensures IsMember(ms, key, e) <==> IsMember(t, key, e) || (e == ms[0] && key0 == key) {}
      if key0 == key { assert IsMember(ms, key, ms[0]) && key in seen + [key0]; }
    }
  }

  lemma FinishSurfaces(ms: seq<Entry>, f: Fields, cd: ClientData)
    requires Collect(ms, [], NO_FIELDS) == Some(f)
    ensures Finish(f) == Ok(cd) <==> Surfaces(ms, cd)
  {
    hide Collect, DecodedKey, StringValue;
    CollectIsOk(ms, [], NO_FIELDS);
    CollectFinds(ms, [], NO_FIELDS, TYPE_KEY);
    CollectFinds(ms, [], NO_FIELDS, CHALLENGE_KEY);
    CollectFinds(ms, [], NO_FIELDS, ORIGIN_KEY);
    CollectFinds(ms, [], NO_FIELDS, CROSS_KEY);
  }

  // ---------------------------------------------------------------- soundness and completeness

  lemma DocumentAt(d: Document)
    ensures var doc := DocumentText(d);
            var e := |d.lead| + |Text(d.top)|;
            && At(doc, 0, d.lead) && At(doc, |d.lead|, Text(d.top)) && At(doc, e, d.trail)
            && |doc| == e + |d.trail| && doc[e..] == d.trail
  {
    hide Text;
    var doc := DocumentText(d);
    AtSlice(doc, 0, doc);
    AtConcat3(doc, 0, d.lead, Text(d.top), d.trail);
    AtSlice(doc, |d.lead| + |Text(d.top)|, d.trail);
  }

  lemma {:induction false} FailKinds(b: Bytes, i: nat, seen: seq<Bytes>, f: Fields)
    requires i <= |b|
    ensures var r := ReadStrict(b, i, seen, f); r.Fails? ==> r.error == ClientDataMalformed || r.error == ClientDataDuplicateKey
    decreases |b| - i
  {
    hide SkipWs, ReadStrictMember;
    MemberFailKinds(b, i, seen, f);
    match ReadStrictMember(b, i, seen, f)
    case Fails(_) =>
    case Scanned((key, f'), e) =>
      var s := SkipWs(b, e);
      if s < |b| && b[s] == COMMA { FailKinds(b, s + 1, seen + [key], f'); }
  }

  lemma MemberFailKinds(b: Bytes, i: nat, seen: seq<Bytes>, f: Fields)
    requires i <= |b|
    ensures var r := ReadStrictMember(b, i, seen, f);
            r.Fails? ==> r.error == ClientDataMalformed || r.error == ClientDataDuplicateKey
  {
    hide SkipWs, DecodeString, ReadBool, ReadValue, IsB64UrlNoPad;
  }

  lemma ObjectFailKinds(b: Bytes, i: nat)
    requires i <= |b|
    ensures var r := ReadStrictObject(b, i); r.Fails? ==> r.error == ClientDataMalformed || r.error == ClientDataDuplicateKey
  {
    hide SkipWs, ReadStrict;
    FailKinds(b, i, [], NO_FIELDS);
  }

  /** What a parse that reaches the end of the text has found. */
  ghost predicate ScansWhole(doc: Bytes) {
    var j := SkipWs(doc, 0);
    && |doc| <= MAX_CLIENT_DATA_LEN && Utf8.Valid(doc) && j < |doc| && doc[j] == LBRACE
    && ReadStrictObject(doc, j + 1).Scanned? && SkipWs(doc, ReadStrictObject(doc, j + 1).end) == |doc|
    && ParseStrict(doc) == Finish(ReadStrictObject(doc, j + 1).value)
  }

  lemma ParseScans(doc: Bytes)
    requires ParseStrict(doc).Ok? || ParseStrict(doc).error == ClientDataMissingKey
    ensures ScansWhole(doc)
  {
    hide SkipWs, ReadStrictObject, Finish, Utf8.Valid;
    if SkipWs(doc, 0) < |doc| { ObjectFailKinds(doc, SkipWs(doc, 0) + 1); }
  }

  lemma ReadingIsDocument(doc: Bytes, v: Value, e: nat)
    requires ReadValue(doc, 0, 1 + MAX_JSON_DEPTH) == Got(v, e) && SkipWs(doc, e) == |doc|
    requires (v.Empty? || v.Container?) && v.isObject
    ensures var d := Document(doc[..SkipWs(doc, 0)], v, doc[e..]);
            DocumentText(d) == doc && DocumentOk(d) && Depth(v) <= 1 + MAX_JSON_DEPTH
  {
    hide SkipWs, ReadValue, Text, At, Depth, ValueOk;
    var j := SkipWs(doc, 0);
    SoundValue(doc, 0, 1 + MAX_JSON_DEPTH);
    AtSlice(doc, j, Text(v));
    assert doc[0..j] == doc[..j] && doc[e..|doc|] == doc[e..];
    assert doc == doc[..j] + (doc[j..e] + doc[e..]);
  }

  /** A document that is scanned to its end is strict, and the outcome is decided by its collected members. */
  lemma ScannedIsStrict(doc: Bytes) returns (d: Document)
    requires ParseStrict(doc).Ok? || ParseStrict(doc).error == ClientDataMissingKey
    ensures DocumentText(d) == doc && Strict(d) && Collect(Members(d.top), [], NO_FIELDS).Some?
    ensures ParseStrict(doc) == Finish(Collect(Members(d.top), [], NO_FIELDS).value)
  {
    hide SkipWs, ReadValue, ReadStrictObject, Finish, Members, Depth, DocumentOk, DocumentText, MembersOk, Collect, ParseStrict,
      Utf8.Valid;
    ParseScans(doc);
    StrictObjectIsValue(doc, 0);
    var Got(v, e) := ReadValue(doc, 0, 1 + MAX_JSON_DEPTH);
    d := Document(doc[..SkipWs(doc, 0)], v, doc[e..]);
    ReadingIsDocument(doc, v, e);
    CollectIsOk(Members(v), [], NO_FIELDS);
  }

  lemma ParseFinishes(doc: Bytes, f: Fields, e: nat)
    requires |doc| <= MAX_CLIENT_DATA_LEN && Utf8.Valid(doc) && SkipWs(doc, 0) < |doc| && doc[SkipWs(doc, 0)] == LBRACE
    requires ReadStrictObject(doc, SkipWs(doc, 0) + 1) == Scanned(f, e) && SkipWs(doc, e) == |doc|
    ensures ParseStrict(doc) == Finish(f)
  {
    hide SkipWs, ReadStrictObject, Finish, Utf8.Valid;
  }

  /** The reader takes the whole text for the document's own tree, and nothing but white space is left. */
  lemma DocumentReads(d: Document)
    requires DocumentOk(d) && Depth(d.top) <= 1 + MAX_JSON_DEPTH
    ensures var doc, j := DocumentText(d), |d.lead|;
            && SkipWs(doc, 0) == j < |doc| && doc[j] == LBRACE
            && ReadValue(doc, 0, 1 + MAX_JSON_DEPTH) == Got(d.top, j + |Text(d.top)|)
            && SkipWs(doc, j + |Text(d.top)|) == |doc|
  {
    hide SkipWs, ReadValue, Text, At, Depth, ValueOk, DocumentText;
    var doc, j := DocumentText(d), |d.lead|;
    var e := j + |Text(d.top)|;
    DocumentAt(d);
    ObjectStart(doc, j, e, d.top);
    WsRun(doc, 0, d.lead);
    CompleteGrammar(doc, 0, e, d.lead, d.top, 1 + MAX_JSON_DEPTH);
    WsRun(doc, e, d.trail);
  }

  lemma StrictIsScanned(d: Document)
    requires Strict(d)
    ensures Collect(Members(d.top), [], NO_FIELDS).Some?
    ensures ParseStrict(DocumentText(d)) == Finish(Collect(Members(d.top), [], NO_FIELDS).value)
  {
    hide SkipWs, ReadValue, ReadStrictObject, Finish, Members, Text, Depth, DocumentOk, MembersOk, Collect, ParseStrict,
      DocumentText, Utf8.Valid;
    var doc := DocumentText(d);
    DocumentReads(d);
    StrictObjectIsValue(doc, 0);
    CollectIsOk(Members(d.top), [], NO_FIELDS);
    ParseFinishes(doc, Collect(Members(d.top), [], NO_FIELDS).value, |d.lead| + |Text(d.top)|);
  }

  /** Every accepted document is strict, and its fields surface depth-0 members. */
  lemma AcceptedIsStrict(doc: Bytes, cd: ClientData) returns (d: Document)
    requires ParseStrict(doc) == Ok(cd)
    ensures DocumentText(d) == doc && Strict(d) && Surfaces(Members(d.top), cd)
  {
    hide ParseStrict, DocumentText, Strict, Finish, Surfaces, Members, Collect;
    d := ScannedIsStrict(doc);
    FinishSurfaces(Members(d.top), Collect(Members(d.top), [], NO_FIELDS).value, cd);
  }

  /** Every strict document is accepted, with the fields its depth-0 members determine. */
  lemma StrictIsAccepted(d: Document, cd: ClientData)
    requires Strict(d) && Surfaces(Members(d.top), cd)
    ensures ParseStrict(DocumentText(d)) == Ok(cd)
  {
    hide ParseStrict, DocumentText, Strict, Finish, Surfaces, Members, Collect;
    StrictIsScanned(d);
    FinishSurfaces(Members(d.top), Collect(Members(d.top), [], NO_FIELDS).value, cd);
  }

  /** A text is refused as too long exactly if it is, and for a missing key exactly if it is strict but for that. */
  lemma RefusalIsNamed(doc: Bytes)
    ensures ParseStrict(doc) == Err(ClientDataTooLong) <==> |doc| > MAX_CLIENT_DATA_LEN
    ensures ParseStrict(doc) == Err(ClientDataMissingKey)
       <==> exists d :: DocumentText(d) == doc && Strict(d) && forall cd :: !Surfaces(Members(d.top), cd)
  {
    hide DocumentText, Strict, Surfaces, Members, SkipWs, ReadStrictObject, Utf8.Valid, Collect;
    if SkipWs(doc, 0) < |doc| { ObjectFailKinds(doc, SkipWs(doc, 0) + 1); }
    if ParseStrict(doc) == Err(ClientDataMissingKey) {
      var d := ScannedIsStrict(doc);
      forall cd ensures !Surfaces(Members(d.top), cd) {
        FinishSurfaces(Members(d.top), Collect(Members(d.top), [], NO_FIELDS).value, cd);
      }
    }
    if d :| DocumentText(d) == doc && Strict(d) && forall cd :: !Surfaces(Members(d.top), cd) {
      StrictIsScanned(d);
      var r := ParseStrict(doc);
      if r.Ok? { FinishSurfaces(Members(d.top), Collect(Members(d.top), [], NO_FIELDS).value, r.value); }
    }
  }

  lemma ObjectStart(b: Bytes, i: nat, e: nat, v: Value)
    requires ValueOk(v) && Depth(v) <= 1 + MAX_JSON_DEPTH && (v.Empty? || v.Container?) && v.isObject
    requires At(b, i, Text(v)) && e == i + |Text(v)|
    ensures i < |b| && b[i] == LBRACE && ValueAt(b, i, e, v, 1 + MAX_JSON_DEPTH)
  {
    hide At;
    TextStart(v);
    AtHead(b, i, Text(v));
  }

  /**
    `parse_strict` accepts exactly the texts of strict documents, and what it returns are the
    decoded values of depth-0 members: nothing inside a nested value is ever surfaced.
  */
  lemma ParseStrictIsStrict(doc: Bytes, cd: ClientData)
    ensures ParseStrict(doc) == Ok(cd)
       <==> exists d :: DocumentText(d) == doc && Strict(d) && Surfaces(Members(d.top), cd)
  {
    hide ParseStrict, DocumentText, Strict, Surfaces, Members;
    if ParseStrict(doc) == Ok(cd) {
      var d := AcceptedIsStrict(doc, cd);
    }
    if d :| DocumentText(d) == doc && Strict(d) && Surfaces(Members(d.top), cd) {
      StrictIsAccepted(d, cd);
    }
  }

  // ---------------------------------------------------------------- returned fields are valid UTF-8

  lemma SplitThree(x: Bytes, m: Bytes, y: Bytes, c: Byte, c': Byte)
    requires c < 0x80 && c' < 0x80 && Utf8.Valid(x + ([c] + (m + ([c'] + y))))
    ensures Utf8.Valid(m) && Utf8.Valid(y)
  {
    hide Utf8.Valid;
    Utf8.SplitAtAscii(x, c, m + ([c'] + y));
    Utf8.SplitAtAscii(m, c', y);
  }

  /** In valid UTF-8 the string values of depth-0 members are valid UTF-8. */
  lemma {:induction false} MemberBodies(es: Entries, pre: Bytes, post: Bytes)
    requires EntriesOk(es, true) && Utf8.Valid(pre + (EntriesText(es) + post))
    ensures forall e :: e in ToSeq(es) && e.v.Str? ==> Utf8.Valid(Body(e.v.items))
    decreases es
  {
    hide Utf8.Valid, EntryText;
    match es
    case Last(e) =>
      if e.v.Str? { EntryBody(e, pre, post); }
    case More(e, rest) =>
      if e.v.Str? {
        assert pre + (EntriesText(es) + post) == pre + (EntryText(e) + ([COMMA] + (EntriesText(rest) + post)));
        EntryBody(e, pre, [COMMA] + (EntriesText(rest) + post));
      }
      assert pre + (EntriesText(es) + post) == (pre + EntryText(e) + [COMMA]) + (EntriesText(rest) + post);
      MemberBodies(rest, pre + EntryText(e) + [COMMA], post);
  }

  lemma EntryBody(e: Entry, pre: Bytes, post: Bytes)
    requires e.v.Str? && Utf8.Valid(pre + (EntryText(e) + post))
    ensures Utf8.Valid(Body(e.v.items))
  {
    hide Utf8.Valid, KeyText, Body;
    var m := Body(e.v.items);
    Regroup(pre, KeyText(e.key), e.pre, m, e.post, post);
    SplitThree(pre + KeyText(e.key) + e.pre, m, e.post + post, QUOTE, QUOTE);
  }

  lemma Regroup(a: Bytes, b: Bytes, c: Bytes, m: Bytes, x: Bytes, y: Bytes)
    ensures a + ((b + (c + ([QUOTE] + m + [QUOTE] + x))) + y)
         == (a + b + c) + ([QUOTE] + (m + ([QUOTE] + (x + y))))
  {
  }

  /** Every string the program reads out of `clientDataJSON` is valid UTF-8. */
  lemma FieldsAreUtf8(doc: Bytes, cd: ClientData)
    requires ParseStrict(doc) == Ok(cd)
    ensures Utf8.Valid(cd.typ) && Utf8.Valid(cd.challenge) && Utf8.Valid(cd.origin)
  {
    hide ParseStrict, Utf8.Valid, ValueOk, EntriesText;
    var d := AcceptedIsStrict(doc, cd);
    if d.top.Container? {
      TopMemberBodies(d);
      var ms := Members(d.top);
      var t :| IsMember(ms, TYPE_KEY, t) && StringValue(t.v) == Some(cd.typ);
      var c :| IsMember(ms, CHALLENGE_KEY, c) && StringValue(c.v) == Some(cd.challenge);
      var o :| IsMember(ms, ORIGIN_KEY, o) && StringValue(o.v) == Some(cd.origin);
      var _ := DecodedIsUtf8(t.v.items);
      var _ := DecodedIsUtf8(c.v.items);
      var _ := DecodedIsUtf8(o.v.items);
    }
  }

  lemma TopMemberBodies(d: Document)
    requires DocumentOk(d) && d.top.Container? && Utf8.Valid(DocumentText(d))
    ensures forall e :: e in Members(d.top) && e.v.Str? ==> Utf8.Valid(Body(e.v.items))
  {
    hide Utf8.Valid, EntriesText;
    var es := d.top.entries;
    assert DocumentText(d) == (d.lead + [LBRACE]) + (EntriesText(es) + ([RBRACE] + d.trail));
    MemberBodies(es, d.lead + [LBRACE], [RBRACE] + d.trail);
  }
}
