/**
  The canonical artefacts of a browser assertion and why the program always accepts them: the
  printed client data is a strict document by the grammar, so completeness of the reader applies.
*/
module Honest {
  import opened Base
  import opened Json
  import opened JsonStrings
  import opened ClientDataJson
  import opened State
  import opened RootVerify
  import Utf8
  import Wire
  import Precompile
  import Base64Url

  function Quoted(s: Bytes): Bytes { [QUOTE] + s + [QUOTE] }

  /** `{"type":"webauthn.get","challenge":"...","origin":"...","crossOrigin":false}` */
  function ClientDataText(challenge: Bytes, origin: Bytes): Bytes {
    [LBRACE] + Quoted(TYPE_KEY) + [COLON] + Quoted(WEBAUTHN_GET)
    + [COMMA] + Quoted(CHALLENGE_KEY) + [COLON] + Quoted(challenge)
    + [COMMA] + Quoted(ORIGIN_KEY) + [COLON] + Quoted(origin)
    + [COMMA] + Quoted(CROSS_KEY) + [COLON] + FALSE + [RBRACE]
  }

  /** rpIdHash, flags, and a zero sign counter. */
  function AuthenticatorData(rpIdHash: Hash, flags: Byte): Bytes { rpIdHash + [flags] + [0, 0, 0, 0] }

  /** Printable ASCII that needs no escape. */
  predicate IsPlain(s: Bytes) { forall k :: 0 <= k < |s| ==> IsPlainByte(s[k]) }

  predicate IsPlainByte(c: Byte) { 0x20 <= c < 0x80 && c != QUOTE && c != BACKSLASH }

  function Member(key: Bytes, v: Value): Entry { Entry(Some(Key([], Raws(key), [])), [], v, []) }

  function TextMember(key: Bytes, s: Bytes): Entry { Member(key, Str(Raws(s))) }

  function TypeMember(): Entry { TextMember(TYPE_KEY, WEBAUTHN_GET) }

  function ChallengeMember(challenge: Bytes): Entry { TextMember(CHALLENGE_KEY, challenge) }

  function OriginMember(origin: Bytes): Entry { TextMember(ORIGIN_KEY, origin) }

  function CrossMember(): Entry { Member(CROSS_KEY, Lit(False)) }

  function CanonicalEntries(challenge: Bytes, origin: Bytes): Entries {
    More(TypeMember(), More(ChallengeMember(challenge), More(OriginMember(origin), Last(CrossMember()))))
  }

  function CanonicalDocument(challenge: Bytes, origin: Bytes): Document {
    Document([], Container(true, CanonicalEntries(challenge, origin)), [])
  }

  lemma NoWhiteSpace(x: Bytes, y: Bytes)
    ensures [] + (x + ([] + y)) == x + y && [] + (x + []) == x
  {
  }

  lemma MemberText(key: Bytes, v: Value)
    requires IsPlain(key) && ValueOk(v)
    ensures EntryText(Member(key, v)) == Quoted(key) + [COLON] + Text(v)
    ensures DecodedKey(Member(key, v)) == Some(key) && EntryOk(Member(key, v), true)
  {
    hide Text, ValueOk, Body, Decode, Raws;
    RawsDecode(key);
    NoWhiteSpace(Quoted(key), [COLON]);
    NoWhiteSpace(Text(v), []);
  }

  lemma TextMemberText(key: Bytes, s: Bytes)
    requires IsPlain(key) && IsPlain(s)
    ensures EntryText(TextMember(key, s)) == Quoted(key) + [COLON] + Quoted(s)
    ensures DecodedKey(TextMember(key, s)) == Some(key) && EntryOk(TextMember(key, s), true)
    ensures TextMember(key, s).v.Str? && StringValue(TextMember(key, s).v) == Some(s)
  {
    hide EntryText, DecodedKey, EntryOk, Member, IsPlain, Body, Decode, Raws;
    assert IsPlain(s) ==> forall k :: 0 <= k < |s| ==> s[k] >= 0x20 && s[k] != QUOTE && s[k] != BACKSLASH by {
      PlainIsRaw(s);
    }
    RawsDecode(s);
    MemberText(key, Str(Raws(s)));
    MemberValue(key, Str(Raws(s)));
  }

  lemma PlainIsRaw(s: Bytes)
    requires IsPlain(s)
    ensures forall k :: 0 <= k < |s| ==> s[k] >= 0x20 && s[k] != QUOTE && s[k] != BACKSLASH
  {
  }

  lemma MemberValue(key: Bytes, v: Value)
    ensures Member(key, v).v == v
  {
  }

  lemma KeysArePlain()
    ensures IsPlain(TYPE_KEY) && IsPlain(CHALLENGE_KEY) && IsPlain(ORIGIN_KEY) && IsPlain(CROSS_KEY) && IsPlain(WEBAUTHN_GET)
    ensures TYPE_KEY != CHALLENGE_KEY && TYPE_KEY != ORIGIN_KEY && TYPE_KEY != CROSS_KEY
    ensures CHALLENGE_KEY != ORIGIN_KEY && CHALLENGE_KEY != CROSS_KEY && ORIGIN_KEY != CROSS_KEY
  {
    assert TYPE_KEY[0] != CHALLENGE_KEY[0] && ORIGIN_KEY[0] != TYPE_KEY[0] && |CROSS_KEY| == 11;
  }

  /** The four members of the canonical document, in order. */
  lemma CanonicalFour(challenge: Bytes, origin: Bytes)
    requires IsPlain(challenge) && IsPlain(origin)
    ensures MemberIs(TypeMember(), TYPE_KEY, Quoted(WEBAUTHN_GET)) && StringValue(TypeMember().v) == Some(WEBAUTHN_GET)
    ensures MemberIs(ChallengeMember(challenge), CHALLENGE_KEY, Quoted(challenge))
    ensures StringValue(ChallengeMember(challenge).v) == Some(challenge)
    ensures MemberIs(OriginMember(origin), ORIGIN_KEY, Quoted(origin)) && StringValue(OriginMember(origin).v) == Some(origin)
    ensures MemberIs(CrossMember(), CROSS_KEY, FALSE) && CrossMember().v == Lit(False)
    ensures TypeMember().v.Str? && ChallengeMember(challenge).v.Str? && OriginMember(origin).v.Str?
  {
    hide EntryText, EntryOk, DecodedKey, StringValue, IsPlain, Quoted, TextMember, Member, Text;
    KeysArePlain();
    TextMemberText(TYPE_KEY, WEBAUTHN_GET);
    TextMemberText(CHALLENGE_KEY, challenge);
    TextMemberText(ORIGIN_KEY, origin);
    MemberText(CROSS_KEY, Lit(False));
    MemberValue(CROSS_KEY, Lit(False));
    FalseText();
  }

  /** A well-formed member with this decoded key and this text after the colon. */
  ghost predicate MemberIs(e: Entry, key: Bytes, text: Bytes) {
    EntryOk(e, true) && DecodedKey(e) == Some(key) && EntryText(e) == Quoted(key) + [COLON] + text
  }

  lemma FalseText()
    ensures Text(Lit(False)) == FALSE && ValueOk(Lit(False))
  {
  }

  /** The printed client data is the text of the canonical document. */
  lemma CanonicalText(challenge: Bytes, origin: Bytes)
    requires IsPlain(challenge) && IsPlain(origin)
    ensures DocumentText(CanonicalDocument(challenge, origin)) == ClientDataText(challenge, origin)
    ensures DocumentOk(CanonicalDocument(challenge, origin)) && Depth(CanonicalDocument(challenge, origin).top) == 1
  {
    hide EntryText, EntryOk, DecodedKey, StringValue, IsPlain, Quoted, TextMember, Member, Text, Depth, ValueOk;
    CanonicalFour(challenge, origin);
    var a, b, c, d := TypeMember(), ChallengeMember(challenge), OriginMember(origin), CrossMember();
    FourEntries(a, b, c, d);
    var t := Text(CanonicalDocument(challenge, origin).top);
    NoWhiteSpace(t, []);
    Printed(Quoted(TYPE_KEY), Quoted(WEBAUTHN_GET), Quoted(CHALLENGE_KEY), Quoted(challenge),
            Quoted(ORIGIN_KEY), Quoted(origin), Quoted(CROSS_KEY));
  }

  lemma Printed(k1: Bytes, v1: Bytes, k2: Bytes, v2: Bytes, k3: Bytes, v3: Bytes, k4: Bytes)
    ensures [LBRACE] + (k1 + [COLON] + v1) + [COMMA] + (k2 + [COLON] + v2) + [COMMA] + (k3 + [COLON] + v3)
            + [COMMA] + (k4 + [COLON] + FALSE) + [RBRACE]
         == [LBRACE] + k1 + [COLON] + v1 + [COMMA] + k2 + [COLON] + v2 + [COMMA] + k3 + [COLON] + v3
            + [COMMA] + k4 + [COLON] + FALSE + [RBRACE]
  {
  }

  lemma {:induction false} FourEntries(a: Entry, b: Entry, c: Entry, d: Entry)
    requires EntryOk(a, true) && EntryOk(b, true) && EntryOk(c, true) && EntryOk(d, true)
    ensures var v := Container(true, More(a, More(b, More(c, Last(d)))));
            && Text(v) == [LBRACE] + EntryText(a) + [COMMA] + EntryText(b) + [COMMA] + EntryText(c)
                          + [COMMA] + EntryText(d) + [RBRACE]
            && ValueOk(v) && Members(v) == [a, b, c, d]
            && (a.v.Str? && b.v.Str? && c.v.Str? && d.v.Lit? ==> Depth(v) == 1)
  {
    hide EntryText, EntryOk, Depth, EntriesText, EntriesOk, ToSeq;
    FourTexts(EntryText(a), EntryText(b), EntryText(c), EntryText(d));
    FourEntriesText(a, b, c, d);
    FourEntriesShape(a, b, c, d);
    if a.v.Str? && b.v.Str? && c.v.Str? && d.v.Lit? { FourDepths(a, b, c, d); }
  }

  lemma {:induction false} FourEntriesText(a: Entry, b: Entry, c: Entry, d: Entry)
    ensures EntriesText(More(a, More(b, More(c, Last(d))))) ==
            EntryText(a) + ([COMMA] + (EntryText(b) + ([COMMA] + (EntryText(c) + ([COMMA] + EntryText(d))))))
  {
    hide EntryText;
    var y := More(c, Last(d));
    assert EntriesText(Last(d)) == EntryText(d);
    assert EntriesText(y) == EntryText(c) + ([COMMA] + EntryText(d));
    assert EntriesText(More(b, y)) == EntryText(b) + ([COMMA] + EntriesText(y));
  }

  lemma {:induction false} FourEntriesShape(a: Entry, b: Entry, c: Entry, d: Entry)
    requires EntryOk(a, true) && EntryOk(b, true) && EntryOk(c, true) && EntryOk(d, true)
    ensures EntriesOk(More(a, More(b, More(c, Last(d)))), true)
    ensures ToSeq(More(a, More(b, More(c, Last(d))))) == [a, b, c, d]
  {
    hide EntryOk, EntryText, Depth;
    var y := More(c, Last(d));
    var z := More(b, y);
    assert EntriesOk(y, true) && EntriesOk(z, true);
    assert ToSeq(y) == [c, d] && ToSeq(z) == [b] + ToSeq(y);
  }

  lemma {:induction false} FourDepths(a: Entry, b: Entry, c: Entry, d: Entry)
    requires a.v.Str? && b.v.Str? && c.v.Str? && d.v.Lit?
    ensures Depth(Container(true, More(a, More(b, More(c, Last(d)))))) == 1
  {
    hide EntryOk, EntryText, ToSeq;
    var y := More(c, Last(d));
    var z := More(b, y);
    assert Depth(a.v) == Depth(b.v) == Depth(c.v) == Depth(d.v) == 0;
    assert EntriesDepth(Last(d)) == 0;
    assert EntriesDepth(y) == 0;
    assert EntriesDepth(z) == 0;
    assert EntriesDepth(More(a, z)) == 0;
  }

  lemma FourTexts(a: Bytes, b: Bytes, c: Bytes, d: Bytes)
    ensures [LBRACE] + ((a + ([COMMA] + (b + ([COMMA] + (c + ([COMMA] + d)))))) + [RBRACE])
         == [LBRACE] + a + [COMMA] + b + [COMMA] + c + [COMMA] + d + [RBRACE]
  {
  }

  lemma CanonicalMembers(challenge: Bytes, origin: Bytes)
    requires IsPlain(challenge) && IsPlain(origin) && IsB64UrlNoPad(challenge)
    ensures var ms := Members(CanonicalDocument(challenge, origin).top);
            && MembersOk(ms) && Surfaces(ms, ClientData(WEBAUTHN_GET, challenge, origin, false))
  {
    hide EntryText, EntryOk, DecodedKey, StringValue, IsPlain, IsB64UrlNoPad, TextMember, Member, Quoted, Members, Text,
      Depth, ValueOk;
    CanonicalFour(challenge, origin);
    var a, b, c, d := TypeMember(), ChallengeMember(challenge), OriginMember(origin), CrossMember();
    FourEntries(a, b, c, d);
    var ms := Members(CanonicalDocument(challenge, origin).top);
    assert ms == [a, b, c, d];
    KeysArePlain();
    assert MembersOk(ms);
    assert IsMember(ms, TYPE_KEY, a) && IsMember(ms, CHALLENGE_KEY, b) && IsMember(ms, ORIGIN_KEY, c);
    forall e | IsMember(ms, CROSS_KEY, e) ensures e.v != Lit(True) {
      assert e == a || e == b || e == c || e == d;
    }
  }

  lemma QuotedAscii(s: Bytes)
    requires IsPlain(s)
    ensures |Quoted(s)| == |s| + 2 && IsAscii(Quoted(s))
  {
  }

  predicate IsAscii(s: Bytes) { forall k :: 0 <= k < |s| ==> s[k] < 0x80 }

  lemma AsciiConcat(s: Bytes, t: Bytes)
    requires IsAscii(s) && IsAscii(t)
    ensures IsAscii(s + t)
  {
  }

  lemma ClientDataIsAscii(challenge: Bytes, origin: Bytes)
    requires IsPlain(challenge) && IsPlain(origin)
    ensures Utf8.Valid(ClientDataText(challenge, origin))
    ensures |ClientDataText(challenge, origin)| == |challenge| + |origin| + 70
  {
    hide Utf8.Valid, Quoted, IsPlain, IsAscii;
    KeysArePlain();
    var t1, g, t2, t3, t4 := Quoted(TYPE_KEY), Quoted(WEBAUTHN_GET), Quoted(CHALLENGE_KEY), Quoted(ORIGIN_KEY), Quoted(CROSS_KEY);
    var c, o := Quoted(challenge), Quoted(origin);
    QuotedAscii(TYPE_KEY);
    QuotedAscii(WEBAUTHN_GET);
    QuotedAscii(CHALLENGE_KEY);
    QuotedAscii(ORIGIN_KEY);
    QuotedAscii(CROSS_KEY);
    QuotedAscii(challenge);
    QuotedAscii(origin);
    MarksAreAscii();
    var p1 := [LBRACE] + t1 + [COLON] + g;
    AsciiConcat([LBRACE], t1);
    AsciiConcat([LBRACE] + t1, [COLON]);
    AsciiConcat([LBRACE] + t1 + [COLON], g);
    AsciiConcat(p1, [COMMA]);
    AsciiMember(p1 + [COMMA], t2, c);
    var p2 := p1 + [COMMA] + t2 + [COLON] + c;
    AsciiConcat(p2, [COMMA]);
    AsciiMember(p2 + [COMMA], t3, o);
    var p3 := p2 + [COMMA] + t3 + [COLON] + o;
    AsciiConcat(p3, [COMMA]);
    AsciiMember(p3 + [COMMA], t4, FALSE);
    var p4 := p3 + [COMMA] + t4 + [COLON] + FALSE;
    AsciiConcat(p4, [RBRACE]);
    AsciiValid(ClientDataText(challenge, origin));
  }

  lemma MarksAreAscii()
    ensures IsAscii([LBRACE]) && IsAscii([COLON]) && IsAscii([COMMA]) && IsAscii([RBRACE]) && IsAscii(FALSE)
  {
  }

  lemma AsciiMember(p: Bytes, key: Bytes, v: Bytes)
    requires IsAscii(p) && IsAscii(key) && IsAscii(v)
    ensures IsAscii(p + key + [COLON] + v)
  {
  }

  lemma AsciiValid(s: Bytes)
    requires IsAscii(s)
    ensures Utf8.Valid(s)
  {
    Utf8.AsciiIsValid(s);
  }

  /** The scanner reads the printed client data back. */
  lemma ClientDataParses(challenge: Bytes, origin: Bytes)
    requires IsPlain(challenge) && IsPlain(origin) && IsB64UrlNoPad(challenge)
    requires |challenge| + |origin| + 70 <= MAX_CLIENT_DATA_LEN
    ensures ParseStrict(ClientDataText(challenge, origin)) == Ok(ClientData(WEBAUTHN_GET, challenge, origin, false))
  {
    hide ClientDataText, DocumentText, MembersOk, Surfaces, ParseStrict, ValueOk, Utf8.Valid, IsPlain, IsB64UrlNoPad,
      CanonicalDocument, DocumentOk, Depth, Members;
    var d := CanonicalDocument(challenge, origin);
    CanonicalText(challenge, origin);
    CanonicalMembers(challenge, origin);
    ClientDataIsAscii(challenge, origin);
    StrictIsAccepted(d, ClientData(WEBAUTHN_GET, challenge, origin, false));
  }

  /** What account creation guarantees about the stored key, origin and relying party. */
  predicate CeremonyReady(a: Account) {
    a.rootKind == 0 && a.originLen <= 64 && IsPlain(a.origin[..a.originLen])
  }

  lemma ChallengeIsPlain(env: Env, t: Wire.Transcript)
    ensures IsPlain(Challenge(env, t)) && IsB64UrlNoPad(Challenge(env, t)) && |Challenge(env, t)| == 43
  {
    Base64Url.DecodeEncode(env.keccak(Wire.TranscriptPreimage(t)));
  }

  /** The canonical arguments of a root instruction for the account's current state; `flags` has UP and UV set. */
  function HonestArgs(env: Env, a: Account, key: Pubkey, action: Wire.Action, ix: Byte, expiry: I64, flags: Byte): RootArgs
    requires a.originLen <= 64
  {
    var t := Wire.Transcript(a.clusterTag, env.programId, key, a.generation, a.policy.version, a.rootNonce, expiry,
                             env.keccak(Wire.ActionPreimage(action)));
    var challenge := Base64Url.Encode(env.keccak(Wire.TranscriptPreimage(t)));
    RootArgs(ix, AuthenticatorData(a.rpIdHash, flags), ClientDataText(challenge, a.origin[..a.originLen]), expiry)
  }

  /** An honest ceremony is never refused: it passes every check while it is fresh. */
  lemma HonestIsAccepted(env: Env, a: Account, cx: Context, key: Pubkey, action: Wire.Action, ix: Byte, expiry: I64,
                         flags: Byte, signature: Bytes)
    requires CeremonyReady(a) && a.rootNonce + 1 < U64_LIMIT && FlagsOk(flags)
    requires cx.now <= expiry <= cx.now + MAX_ROOT_EXPIRY_SECS && cx.now + MAX_ROOT_EXPIRY_SECS < I64_LIMIT
    requires ix < cx.sysvar.current && ix < |cx.sysvar.ixs| && |signature| == 64
    requires var args := HonestArgs(env, a, key, action, ix, expiry, flags);
             cx.sysvar.ixs[ix] == Precompile.Instruction(Precompile.SECP256R1_ID,
               Precompile.InstructionData(a.rootPubkey, signature, args.authenticatorData + env.sha256(args.clientDataJson), 1,
                                          Precompile.SAME_INSTRUCTION))
    ensures VerifyRoot(env, a, cx, HonestArgs(env, a, key, action, ix, expiry, flags), key, ActionHash(env, action))
            == Ok(a.(rootNonce := a.rootNonce + 1))
  {
    hide ParseStrict, ClientDataText, Base64Url.Encode, Wire.TranscriptPreimage, Wire.ActionPreimage,
      Precompile.Bind, Precompile.InstructionData, IsPlain, IsB64UrlNoPad;
    var args := HonestArgs(env, a, key, action, ix, expiry, flags);
    var t := CurrentTranscript(env, a, key, expiry, action);
    ChallengeIsPlain(env, t);
    ClientDataParses(Challenge(env, t), a.origin[..a.originLen]);
    HonestAuthData(a.rpIdHash, flags);
    Precompile.HonestBinds(cx.sysvar, ix, a.rootPubkey, signature, args.authenticatorData + env.sha256(args.clientDataJson));
  }

  lemma HonestAuthData(rpIdHash: Hash, flags: Byte)
    requires FlagsOk(flags)
    ensures CheckAuthData(AuthenticatorData(rpIdHash, flags), rpIdHash) == Pass
    ensures |AuthenticatorData(rpIdHash, flags)| == 37
  {
    assert AuthenticatorData(rpIdHash, flags)[..32] == rpIdHash;
  }
}
