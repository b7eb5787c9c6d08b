/**
  What the signed and hashed byte strings say, read from their bytes: literal operation bytes, permanent
  offsets, little-endian numbers, two's complement times. The encoders of `Wire` are inverted by these
  readers, so a byte string that was signed means what is read here and nothing else.
*/
module Readings {
  import opened Base
  import opened Buckets
  import opened Wire

  // ---------------------------------------------------------------- numbers

  lemma {:induction false} NumberBound(s: Bytes)
    ensures FromLe(s) < Pow256(|s|)
    decreases |s|
  {
    if s != [] { NumberBound(s[1..]); }
  }

  function ReadU64(s: Bytes, o: nat): U64
    requires o + 8 <= |s|
  {
    NumberBound(Field(s, o, 8));
    Pow256Values();
    FromLe(Field(s, o, 8))
  }

  function ReadU32(s: Bytes, o: nat): U32
    requires o + 4 <= |s|
  {
    NumberBound(Field(s, o, 4));
    Pow256Values();
    FromLe(Field(s, o, 4))
  }

  function ReadU16(s: Bytes, o: nat): U16
    requires o + 2 <= |s|
  {
    NumberBound(Field(s, o, 2));
    Pow256Values();
    FromLe(Field(s, o, 2))
  }

  /** Two's complement: the upper half of the unsigned numbers stands for the negative ones. */
  function ReadI64(s: Bytes, o: nat): I64
    requires o + 8 <= |s|
  {
    var v := ReadU64(s, o);
    if v < I64_LIMIT then v else v - U64_LIMIT
  }

  function ReadKey(s: Bytes, o: nat): Pubkey
    requires o + 32 <= |s|
  {
    Field(s, o, 32)
  }

  lemma U64Reads(s: Bytes, o: nat, v: U64)
    requires At(s, o, Le64(v))
    ensures o + 8 <= |s| && ReadU64(s, o) == v
  {
    hide Le;
    AtSlice(s, o, Le64(v));
    Le64Inverse(v);
  }

  lemma U32Reads(s: Bytes, o: nat, v: U32)
    requires At(s, o, Le32(v))
    ensures o + 4 <= |s| && ReadU32(s, o) == v
  {
    hide Le;
    AtSlice(s, o, Le32(v));
    Le32Inverse(v);
  }

  lemma U16Reads(s: Bytes, o: nat, v: U16)
    requires At(s, o, Le16(v))
    ensures o + 2 <= |s| && ReadU16(s, o) == v
  {
    hide Le;
    AtSlice(s, o, Le16(v));
    Le16Inverse(v);
  }

  lemma I64Reads(s: Bytes, o: nat, v: I64)
    requires At(s, o, LeI64(v))
    ensures o + 8 <= |s| && ReadI64(s, o) == v
  {
    U64Reads(s, o, Unsigned(v));
  }

  lemma KeyReads(s: Bytes, o: nat, k: Pubkey)
    requires At(s, o, k)
    ensures o + 32 <= |s| && ReadKey(s, o) == k
  {
    AtSlice(s, o, k);
  }

  // ---------------------------------------------------------------- the root transcript

  const TRANSCRIPT_LEN: nat := 170

  function ReadTranscript(s: Bytes): Option<Transcript> {
    if |s| != TRANSCRIPT_LEN || s[..14] != Ascii("WARDEN/root/v1") then None
    else
      Some(Transcript(ReadKey(s, 14), ReadKey(s, 46), ReadKey(s, 78), ReadU64(s, 110), ReadU32(s, 118), ReadU64(s, 122),
                      ReadI64(s, 130), ReadKey(s, 138)))
  }

  /** A transcript's bytes say each of its fields, at its permanent offset. */
  lemma TranscriptReads(t: Transcript)
    ensures ReadTranscript(TranscriptPreimage(t)) == Some(t)
  {
    hide At, Le, ReadU64, ReadU32, ReadI64, ReadKey, Unsigned;
    var s := TranscriptPreimage(t);
    var n := TranscriptNumbers(t);
    Widths();
    AtSlice(s, 0, s);
    DomainIsNamed();
    AtConcat3(s, 0, TRANSCRIPT_DOMAIN, t.clusterTag, t.programId + (t.account + n));
    AtConcat3(s, 46, t.programId, t.account, n);
    AtSlice(s, 0, TRANSCRIPT_DOMAIN);
    assert s[..14] == s[0..14];
    KeyReads(s, 14, t.clusterTag);
    KeyReads(s, 46, t.programId);
    KeyReads(s, 78, t.account);
    NumbersRead(t, s);
  }

  /** The same as offsets and numbers. */
  lemma TranscriptLayout(t: Transcript)
    ensures var s := TranscriptPreimage(t);
            && |s| == 170 && Field(s, 0, 14) == Ascii("WARDEN/root/v1") && Field(s, 14, 32) == t.clusterTag
            && Field(s, 46, 32) == t.programId && Field(s, 78, 32) == t.account && FromLe(Field(s, 110, 8)) == t.generation
            && FromLe(Field(s, 118, 4)) == t.policyVersion && FromLe(Field(s, 122, 8)) == t.rootNonce
            && FromLe(Field(s, 130, 8)) == (if t.expiryTs >= 0 then t.expiryTs else t.expiryTs + U64_LIMIT)
            && Field(s, 138, 32) == t.actionHash
  {
    hide FromLe, TranscriptPreimage;
    TranscriptReads(t);
  }

  lemma NumbersRead(t: Transcript, s: Bytes)
    requires At(s, 110, TranscriptNumbers(t)) && |s| == TRANSCRIPT_LEN
    ensures ReadU64(s, 110) == t.generation && ReadU32(s, 118) == t.policyVersion && ReadU64(s, 122) == t.rootNonce
    ensures ReadI64(s, 130) == t.expiryTs && ReadKey(s, 138) == t.actionHash
  {
    hide At, Le, ReadU64, ReadU32, ReadI64, ReadKey, Unsigned;
    Widths();
    var tail := LeI64(t.expiryTs) + t.actionHash;
    AtConcat3(s, 110, Le64(t.generation), Le32(t.policyVersion), Le64(t.rootNonce) + tail);
    AtConcat3(s, 122, Le64(t.rootNonce), LeI64(t.expiryTs), t.actionHash);
    U64Reads(s, 110, t.generation);
    U32Reads(s, 118, t.policyVersion);
    U64Reads(s, 122, t.rootNonce);
    I64Reads(s, 130, t.expiryTs);
    KeyReads(s, 138, t.actionHash);
  }

  lemma DomainIsNamed()
    ensures TRANSCRIPT_DOMAIN == Ascii("WARDEN/root/v1")
  {
  }

  // ---------------------------------------------------------------- actions

  function ReadCap(s: Bytes, o: nat): MintCap
    requires o + 56 <= |s|
  {
    MintCap(ReadKey(s, o), ReadU64(s, o + 32), ReadU64(s, o + 40), ReadU64(s, o + 48))
  }

  function ReadCaps(s: Bytes, o: nat, n: nat): (caps: seq<MintCap>)
    requires o + 56 * n <= |s|
    ensures |caps| == n
    decreases n
  {
    if n == 0 then [] else [ReadCap(s, o)] + ReadCaps(s, o + 56, n - 1)
  }

  function ReadAmounts(s: Bytes, o: nat, n: nat): (amounts: seq<U64>)
    requires o + 8 * n <= |s|
    ensures |amounts| == n
    decreases n
  {
    if n == 0 then [] else [ReadU64(s, o)] + ReadAmounts(s, o + 8, n - 1)
  }

  /** Expiry, key, kind, mask, counted caps, counted lifetime caps, allowlist, label, prior hash. */
  function ReadGrant(b: Bytes): Option<GrantBody> {
    if |b| < 47 then None
    else
      var n := ReadU32(b, 43);
      var p := 47 + 56 * n;
      if |b| < p + 4 then None
      else
        var m := ReadU32(b, p);
        var q := p + 4 + 8 * m;
        if |b| != q + 50 then None
        else
          Some(GrantBody(ReadI64(b, 0), ReadKey(b, 8), b[40], ReadU16(b, 41), ReadCaps(b, 47, n), ReadAmounts(b, p + 4, m),
                         ReadU16(b, q), Field(b, q + 2, 16), ReadKey(b, q + 18)))
  }

  /** Native flag, mint, destination, amount. */
  function ReadTransfer(b: Bytes): Option<TransferBody> {
    if |b| != 73 || b[0] > 1 then None
    else Some(TransferBody(b[0] == 1, ReadKey(b, 1), ReadKey(b, 33), ReadU64(b, 65)))
  }

  /** The operation byte, then the body of that operation and nothing more. */
  function ReadAction(s: Bytes): Option<Action> {
    if s == [] then None
    else
      var b := s[1..];
      match s[0]
      case 0 => if b == [] then Some(RotateNonce) else None
      case 1 => (match ReadGrant(b) case None => None case Some(g) => Some(GrantSession(g)))
      case 2 => if |b| == 64 then Some(RevokeSession(RevokeBody(ReadKey(b, 0), ReadKey(b, 32)))) else None
      case 3 => if b == [] then Some(FreezeAccount) else None
      case 4 => if b == [] then Some(UnfreezeAccount) else None
      case 5 => (match ReadTransfer(b) case None => None case Some(t) => Some(RootTransfer(t)))
      case _ => None
  }

  lemma CapReads(s: Bytes, o: nat, c: MintCap)
    requires At(s, o, BorshCap(c))
    ensures o + 56 <= |s| && ReadCap(s, o) == c
  {
    hide At, Le, ReadU64, ReadKey;
    Widths();
    AtConcat3(s, o, c.mint, Le64(c.perTx), Le64(c.perDay) + Le64(c.per30d));
    AtConcat(s, o + 40, Le64(c.perDay), Le64(c.per30d));
    KeyReads(s, o, c.mint);
    U64Reads(s, o + 32, c.perTx);
    U64Reads(s, o + 40, c.perDay);
    U64Reads(s, o + 48, c.per30d);
  }

  lemma {:induction false} CapsRead(s: Bytes, o: nat, caps: seq<MintCap>)
    requires At(s, o, BorshCaps(caps))
    ensures |BorshCaps(caps)| == 56 * |caps| && o + 56 * |caps| <= |s| && ReadCaps(s, o, |caps|) == caps
    decreases |caps|
  {
    hide At, BorshCap, ReadCap;
    AtBound(s, o, BorshCaps(caps));
    if caps != [] {
      AtConcat(s, o, BorshCap(caps[0]), BorshCaps(caps[1..]));
      CapReads(s, o, caps[0]);
      CapsRead(s, o + 56, caps[1..]);
    }
  }

  lemma {:induction false} AmountsRead(s: Bytes, o: nat, amounts: seq<U64>)
    requires At(s, o, BorshAmounts(amounts))
    ensures |BorshAmounts(amounts)| == 8 * |amounts| && o + 8 * |amounts| <= |s|
    ensures ReadAmounts(s, o, |amounts|) == amounts
    decreases |amounts|
  {
    hide At, Le, ReadU64;
    AtBound(s, o, BorshAmounts(amounts));
    if amounts != [] {
      AtConcat(s, o, Le64(amounts[0]), BorshAmounts(amounts[1..]));
      U64Reads(s, o, amounts[0]);
      AmountsRead(s, o + 8, amounts[1..]);
    }
  }

  lemma AtBound(s: Bytes, o: nat, t: Bytes)
    requires At(s, o, t)
    ensures o + |t| <= |s|
  {
  }

  lemma GrantReads(g: GrantBody)
    ensures ReadGrant(BorshGrant(g)) == Some(g)
  {
    hide At, Le, BorshCaps, BorshAmounts, BorshGrantEnd, ReadU64, ReadU32, ReadU16, ReadI64, ReadKey, Unsigned, Field;
    var b, caps, amounts := BorshGrant(g), BorshCaps(g.caps), BorshAmounts(g.lifetimeCap);
    Widths();
    GrantHeadReads(g, b);
    var rest := Le32(|g.lifetimeCap|) + (amounts + BorshGrantEnd(g));
    AtConcat3(b, 43, Le32(|g.caps|), caps, rest);
    U32Reads(b, 43, |g.caps|);
    CapsRead(b, 47, g.caps);
    var p := 47 + 56 * |g.caps|;
    AtConcat3(b, p, Le32(|g.lifetimeCap|), amounts, BorshGrantEnd(g));
    U32Reads(b, p, |g.lifetimeCap|);
    AmountsRead(b, p + 4, g.lifetimeCap);
    GrantEndReads(g, b, p + 4 + 8 * |g.lifetimeCap|);
  }

  lemma GrantHeadReads(g: GrantBody, b: Bytes)
    requires b == BorshGrant(g)
    ensures |b| == 43 + |BorshGrantCaps(g)| && At(b, 43, BorshGrantCaps(g)) && |b| >= 43
    ensures ReadI64(b, 0) == g.expiryTs && ReadKey(b, 8) == g.sessionPubkey && b[40] == g.kind
    ensures ReadU16(b, 41) == g.opsMask
  {
    hide At, Le, BorshGrantCaps, ReadU16, ReadI64, ReadKey, Unsigned;
    Widths();
    var ops := Le16(g.opsMask) + BorshGrantCaps(g);
    AtSlice(b, 0, b);
    AtConcat3(b, 0, LeI64(g.expiryTs), g.sessionPubkey, [g.kind] + ops);
    AtConcat3(b, 40, [g.kind], Le16(g.opsMask), BorshGrantCaps(g));
    I64Reads(b, 0, g.expiryTs);
    KeyReads(b, 8, g.sessionPubkey);
    AtSlice(b, 40, [g.kind]);
    assert b[40] == b[40..41][0];
    U16Reads(b, 41, g.opsMask);
  }

  lemma GrantEndReads(g: GrantBody, b: Bytes, q: nat)
    requires At(b, q, BorshGrantEnd(g))
    ensures |BorshGrantEnd(g)| == 50 && q + 50 <= |b|
    ensures ReadU16(b, q) == g.programAllowlistId && Field(b, q + 2, 16) == g.displayLabel
    ensures ReadKey(b, q + 18) == g.priorAuthorityHash
  {
    hide At, Le, ReadU16, ReadKey;
    AtConcat3(b, q, Le16(g.programAllowlistId), g.displayLabel, g.priorAuthorityHash);
    U16Reads(b, q, g.programAllowlistId);
    AtSlice(b, q + 2, g.displayLabel);
    KeyReads(b, q + 18, g.priorAuthorityHash);
  }

  lemma TransferReads(t: TransferBody)
    ensures ReadTransfer(BorshTransfer(t)) == Some(t)
  {
    hide At, Le, ReadU64, ReadKey;
    var b, flag: Bytes := BorshTransfer(t), [if t.native then 1 else 0];
    Widths();
    AtSlice(b, 0, b);
    AtConcat3(b, 0, flag, t.mint, t.destination + Le64(t.amount));
    AtConcat(b, 33, t.destination, Le64(t.amount));
    AtSlice(b, 0, flag);
    assert b[0] == b[0..1][0];
    KeyReads(b, 1, t.mint);
    KeyReads(b, 33, t.destination);
    U64Reads(b, 65, t.amount);
  }

  /** The bytes a root signs for an action say exactly that action. */
  lemma ActionReads(a: Action)
    ensures ReadAction(ActionPreimage(a)) == Some(a)
  {
    hide BorshGrant, BorshTransfer, ReadGrant, ReadTransfer, At;
    var s := ActionPreimage(a);
    assert s[1..] == Borsh(a);
    match a
    case GrantSession(g) => GrantReads(g);
    case RootTransfer(t) => TransferReads(t);
    case RevokeSession(r) =>
      var b := Borsh(a);
      AtSlice(b, 0, b);
      AtConcat(b, 0, r.sessionPubkey, r.refundTo);
      KeyReads(b, 0, r.sessionPubkey);
      KeyReads(b, 32, r.refundTo);
    case _ =>
  }

  // ---------------------------------------------------------------- session authority

  /** Slot by slot, each cap and its lifetime cap. */
  function ReadSlotCaps(s: Bytes, o: nat, n: nat): (caps: seq<MintCap>)
    requires o + 64 * n <= |s|
    ensures |caps| == n
  {
    if n == 0 then [] else ReadSlotCaps(s, o, n - 1) + [ReadCap(s, o + 64 * (n - 1))]
  }

  function ReadSlotLifetimes(s: Bytes, o: nat, n: nat): (amounts: seq<U64>)
    requires o + 64 * n <= |s|
    ensures |amounts| == n
  {
    if n == 0 then [] else ReadSlotLifetimes(s, o, n - 1) + [ReadU64(s, o + 64 * (n - 1) + 56)]
  }

  function ReadAuthority(s: Bytes): Option<Authority> {
    if |s| < 91 || s[..27] != Ascii("WARDEN/session-authority/v1") || (|s| - 91) % 64 != 0 then None
    else
      var n := (|s| - 91) / 64;
      Some(Authority(ReadKey(s, 27), ReadKey(s, 59), ReadSlotCaps(s, 91, n), ReadSlotLifetimes(s, 91, n)))
  }

  lemma {:induction false} SlotsRead(s: Bytes, o: nat, caps: seq<MintCap>, lifetime: seq<U64>)
    requires |caps| == |lifetime| && At(s, o, SlotBytes(caps, lifetime))
    ensures |SlotBytes(caps, lifetime)| == 64 * |caps| && o + 64 * |caps| <= |s|
    ensures ReadSlotCaps(s, o, |caps|) == caps && ReadSlotLifetimes(s, o, |caps|) == lifetime
    decreases |caps|
  {
    hide At, BorshCap, Le, ReadCap, ReadU64;
    SlotBytesLength(caps, lifetime);
    AtBound(s, o, SlotBytes(caps, lifetime));
    if caps != [] {
      var n := |caps| - 1;
      SlotBytesLength(caps[..n], lifetime[..n]);
      AtConcat3(s, o, SlotBytes(caps[..n], lifetime[..n]), BorshCap(caps[n]), Le64(lifetime[n]));
      SlotsRead(s, o, caps[..n], lifetime[..n]);
      CapReads(s, o + 64 * n, caps[n]);
      U64Reads(s, o + 64 * n + 56, lifetime[n]);
    }
  }

  /** The hashed bytes of an authority say all of it. */
  lemma AuthorityReads(a: Authority)
    requires |a.caps| == |a.lifetimeCap|
    ensures ReadAuthority(AuthorityPreimage(a)) == Some(a)
  {
    hide At, SlotBytes, ReadKey, ReadSlotCaps, ReadSlotLifetimes;
    var s, slots := AuthorityPreimage(a), SlotBytes(a.caps, a.lifetimeCap);
    AtSlice(s, 0, s);
    AuthorityIsNamed();
    AtConcat3(s, 0, SESSION_AUTHORITY_DOMAIN, a.account, a.pubkey + slots);
    AtConcat(s, 59, a.pubkey, slots);
    AtSlice(s, 0, SESSION_AUTHORITY_DOMAIN);
    assert s[..27] == s[0..27];
    KeyReads(s, 27, a.account);
    KeyReads(s, 59, a.pubkey);
    SlotsRead(s, 91, a.caps, a.lifetimeCap);
  }

  lemma AuthorityIsNamed()
    ensures SESSION_AUTHORITY_DOMAIN == Ascii("WARDEN/session-authority/v1")
  {
  }
}
