/**
  The byte strings that get hashed and signed: fixed-width little-endian fields, borsh bodies, the
  root transcript, the action and the session authority. Each encoding is injective, which is what
  makes one signed hash mean one set of fields (given that the hash itself has no collision).
*/
module Wire {
  import opened Base
  import opened Buckets

  // ---------------------------------------------------------------- integers

  function Le(v: nat, n: nat): (s: Bytes)
    ensures |s| == n
  {
    if n == 0 then [] else [v % 256] + Le(v / 256, n - 1)
  }

  function FromLe(s: Bytes): nat {
    if s == [] then 0 else s[0] + 256 * FromLe(s[1..])
  }

  function Pow256(n: nat): nat { if n == 0 then 1 else 256 * Pow256(n - 1) }

  lemma {:induction false} FromLeLe(v: nat, n: nat)
    requires v < Pow256(n)
    ensures FromLe(Le(v, n)) == v
    decreases n
  {
    if n > 0 {
      FromLeLe(v / 256, n - 1);
      assert Le(v, n)[1..] == Le(v / 256, n - 1);
    }
  }

  /** Two's complement. */
  function Unsigned(v: I64): U64 { if v < 0 then v + U64_LIMIT else v }

  function Le64(v: U64): Bytes { Le(v, 8) }
  function Le32(v: U32): Bytes { Le(v, 4) }
  function Le16(v: U16): Bytes { Le(v, 2) }
  function LeI64(v: I64): Bytes { Le64(Unsigned(v)) }

  lemma Pow256Values()
    ensures Pow256(2) == 0x1_0000 && Pow256(4) == 0x1_0000_0000 && Pow256(8) == U64_LIMIT
  {
    assert Pow256(1) == 256;
    assert Pow256(3) == 256 * Pow256(2);
    assert Pow256(5) == 256 * Pow256(4);
    assert Pow256(6) == 256 * Pow256(5);
    assert Pow256(7) == 256 * Pow256(6);
  }

  lemma Le64Injective(v: U64, w: U64)
    requires Le64(v) == Le64(w)
    ensures v == w
  {
    Pow256Values();
    FromLeLe(v, 8);
    FromLeLe(w, 8);
  }

  lemma LeI64Injective(v: I64, w: I64)
    requires LeI64(v) == LeI64(w)
    ensures v == w
  {
    Le64Injective(Unsigned(v), Unsigned(w));
  }

  lemma Le32Injective(v: U32, w: U32)
    requires Le32(v) == Le32(w)
    ensures v == w
  {
    Pow256Values();
    FromLeLe(v, 4);
    FromLeLe(w, 4);
  }

  lemma Le16Injective(v: U16, w: U16)
    requires Le16(v) == Le16(w)
    ensures v == w
  {
    Pow256Values();
    FromLeLe(v, 2);
    FromLeLe(w, 2);
  }

  /** Fixed-width fields need no separators. */
  lemma SplitEq<T>(a: seq<T>, b: seq<T>, c: seq<T>, d: seq<T>)
    requires a + b == c + d && |a| == |c|
    ensures a == c && b == d
  {
    assert a == (a + b)[..|a|] && c == (c + d)[..|c|];
    assert b == (a + b)[|a|..] && d == (c + d)[|c|..];
  }

  // ---------------------------------------------------------------- the root transcript

  /** "WARDEN/root/v1" */
  const TRANSCRIPT_DOMAIN: Bytes :=
    [0x57, 0x41, 0x52, 0x44, 0x45, 0x4E, 0x2F, 0x72, 0x6F, 0x6F, 0x74, 0x2F, 0x76, 0x31]

  datatype Transcript = Transcript(
    clusterTag: Hash, programId: Pubkey, account: Pubkey, generation: U64, policyVersion: U32,
    rootNonce: U64, expiryTs: I64, actionHash: Hash)

  function TranscriptPreimage(t: Transcript): Bytes {
    TRANSCRIPT_DOMAIN + (t.clusterTag + (t.programId + (t.account + TranscriptNumbers(t))))
  }

  function TranscriptNumbers(t: Transcript): Bytes {
    Le64(t.generation) + (Le32(t.policyVersion) + (Le64(t.rootNonce) + (LeI64(t.expiryTs) + t.actionHash)))
  }

  /** Equal preimages have equal fields, negative expiry times included. */
  lemma TranscriptInjective(t: Transcript, u: Transcript)
    requires TranscriptPreimage(t) == TranscriptPreimage(u)
    ensures t == u
  {
    hide TranscriptNumbers;
    var n, m := TranscriptNumbers(t), TranscriptNumbers(u);
    SplitEq(TRANSCRIPT_DOMAIN, t.clusterTag + (t.programId + (t.account + n)),
            TRANSCRIPT_DOMAIN, u.clusterTag + (u.programId + (u.account + m)));
    SplitEq(t.clusterTag, t.programId + (t.account + n), u.clusterTag, u.programId + (u.account + m));
    SplitEq(t.programId, t.account + n, u.programId, u.account + m);
    SplitEq(t.account, n, u.account, m);
    NumbersInjective(t, u);
  }

  lemma NumbersInjective(t: Transcript, u: Transcript)
    requires TranscriptNumbers(t) == TranscriptNumbers(u)
    ensures t.generation == u.generation && t.policyVersion == u.policyVersion
    ensures t.rootNonce == u.rootNonce && t.expiryTs == u.expiryTs && t.actionHash == u.actionHash
  {
    hide Le;
    SplitEq(Le64(t.generation), Le32(t.policyVersion) + (Le64(t.rootNonce) + (LeI64(t.expiryTs) + t.actionHash)),
            Le64(u.generation), Le32(u.policyVersion) + (Le64(u.rootNonce) + (LeI64(u.expiryTs) + u.actionHash)));
    SplitEq(Le32(t.policyVersion), Le64(t.rootNonce) + (LeI64(t.expiryTs) + t.actionHash),
            Le32(u.policyVersion), Le64(u.rootNonce) + (LeI64(u.expiryTs) + u.actionHash));
    SplitEq(Le64(t.rootNonce), LeI64(t.expiryTs) + t.actionHash, Le64(u.rootNonce), LeI64(u.expiryTs) + u.actionHash);
    SplitEq(LeI64(t.expiryTs), t.actionHash, LeI64(u.expiryTs), u.actionHash);
    Le64Injective(t.generation, u.generation);
    Le32Injective(t.policyVersion, u.policyVersion);
    Le64Injective(t.rootNonce, u.rootNonce);
    LeI64Injective(t.expiryTs, u.expiryTs);
  }

  // ---------------------------------------------------------------- actions

  /** Vectors carry a 32-bit length, so longer ones cannot be serialised. */
  type CapVec = s: seq<MintCap> | |s| < 0x1_0000_0000
  type AmountVec = s: seq<U64> | |s| < 0x1_0000_0000
  type Label = s: Bytes | |s| == 16 witness Zeros(16)

  datatype GrantBody = GrantBody(
    expiryTs: I64, sessionPubkey: Pubkey, kind: Byte, opsMask: U16, caps: CapVec, lifetimeCap: AmountVec,
    programAllowlistId: U16, displayLabel: Label, priorAuthorityHash: Hash)

  datatype RevokeBody = RevokeBody(sessionPubkey: Pubkey, refundTo: Pubkey)

  datatype TransferBody = TransferBody(native: bool, mint: Pubkey, destination: Pubkey, amount: U64)

  /** What a root ceremony can authorise. */
  datatype Action =
    | RotateNonce | GrantSession(grant: GrantBody) | RevokeSession(revoke: RevokeBody)
    | FreezeAccount | UnfreezeAccount | RootTransfer(transfer: TransferBody)

  function OpByte(a: Action): Byte {
    match a
    case RotateNonce => 0
    case GrantSession(_) => 1
    case RevokeSession(_) => 2
    case FreezeAccount => 3
    case UnfreezeAccount => 4
    case RootTransfer(_) => 5
  }

  function BorshCap(c: MintCap): (s: Bytes)
    ensures |s| == 56
  {
    c.mint + (Le64(c.perTx) + (Le64(c.perDay) + Le64(c.per30d)))
  }

  function BorshCaps(caps: seq<MintCap>): Bytes {
    if caps == [] then [] else BorshCap(caps[0]) + BorshCaps(caps[1..])
  }

  function BorshAmounts(amounts: seq<U64>): Bytes {
    if amounts == [] then [] else Le64(amounts[0]) + BorshAmounts(amounts[1..])
  }

  function BorshGrant(g: GrantBody): Bytes {
    LeI64(g.expiryTs) + (g.sessionPubkey + ([g.kind] + (Le16(g.opsMask) + BorshGrantCaps(g))))
  }

  function BorshGrantCaps(g: GrantBody): Bytes {
    Le32(|g.caps|) + (BorshCaps(g.caps) + (Le32(|g.lifetimeCap|) + (BorshAmounts(g.lifetimeCap) + BorshGrantEnd(g))))
  }

  function BorshGrantEnd(g: GrantBody): Bytes {
    Le16(g.programAllowlistId) + (g.displayLabel + g.priorAuthorityHash)
  }

  function BorshTransfer(t: TransferBody): Bytes {
    [if t.native then 1 else 0] + (t.mint + (t.destination + Le64(t.amount)))
  }

  function Borsh(a: Action): Bytes {
    match a
    case GrantSession(g) => BorshGrant(g)
    case RevokeSession(r) => r.sessionPubkey + r.refundTo
    case RootTransfer(t) => BorshTransfer(t)
    case _ => []
  }

  function ActionPreimage(a: Action): Bytes { [OpByte(a)] + Borsh(a) }

  lemma BorshCapInjective(c: MintCap, d: MintCap)
    requires BorshCap(c) == BorshCap(d)
    ensures c == d
  {
    hide Le;
    SplitEq(c.mint, Le64(c.perTx) + (Le64(c.perDay) + Le64(c.per30d)),
            d.mint, Le64(d.perTx) + (Le64(d.perDay) + Le64(d.per30d)));
    SplitEq(Le64(c.perTx), Le64(c.perDay) + Le64(c.per30d), Le64(d.perTx), Le64(d.perDay) + Le64(d.per30d));
    SplitEq(Le64(c.perDay), Le64(c.per30d), Le64(d.perDay), Le64(d.per30d));
    Le64Injective(c.perTx, d.perTx);
    Le64Injective(c.perDay, d.perDay);
    Le64Injective(c.per30d, d.per30d);
  }

  lemma {:induction false} CapsInjective(c: seq<MintCap>, d: seq<MintCap>, x: Bytes, y: Bytes)
    requires |c| == |d| && BorshCaps(c) + x == BorshCaps(d) + y
    ensures c == d && x == y
    decreases |c|
  {
    hide BorshCap;
    if c == [] {
      assert [] + x == x && [] + y == y;
    } else {
      var c', d' := BorshCaps(c[1..]), BorshCaps(d[1..]);
      assert (BorshCap(c[0]) + c') + x == BorshCap(c[0]) + (c' + x);
      assert (BorshCap(d[0]) + d') + y == BorshCap(d[0]) + (d' + y);
      SplitEq(BorshCap(c[0]), c' + x, BorshCap(d[0]), d' + y);
      BorshCapInjective(c[0], d[0]);
      CapsInjective(c[1..], d[1..], x, y);
      assert c == [c[0]] + c[1..] && d == [d[0]] + d[1..];
    }
  }

  lemma {:induction false} AmountsInjective(c: seq<U64>, d: seq<U64>, x: Bytes, y: Bytes)
    requires |c| == |d| && BorshAmounts(c) + x == BorshAmounts(d) + y
    ensures c == d && x == y
    decreases |c|
  {
    hide Le64;
    if c == [] {
      assert [] + x == x && [] + y == y;
    } else {
      var c', d' := BorshAmounts(c[1..]), BorshAmounts(d[1..]);
      assert (Le64(c[0]) + c') + x == Le64(c[0]) + (c' + x);
      assert (Le64(d[0]) + d') + y == Le64(d[0]) + (d' + y);
      Le64Width(c[0], d[0]);
      SplitEq(Le64(c[0]), c' + x, Le64(d[0]), d' + y);
      Le64Injective(c[0], d[0]);
      AmountsInjective(c[1..], d[1..], x, y);
      assert c == [c[0]] + c[1..] && d == [d[0]] + d[1..];
    }
  }

  lemma Le64Width(v: U64, w: U64)
    ensures |Le64(v)| == |Le64(w)| == 8
  {
  }

  lemma Widths()
    ensures forall v: U64 :: |Le64(v)| == 8
    ensures forall v: U32 :: |Le32(v)| == 4
    ensures forall v: I64 :: |LeI64(v)| == 8
  {
  }

  lemma GrantInjective(g: GrantBody, h: GrantBody)
    requires BorshGrant(g) == BorshGrant(h)
    ensures g == h
  {
    hide Le, BorshGrantCaps;
    var x, y := BorshGrantCaps(g), BorshGrantCaps(h);
    SplitEq(LeI64(g.expiryTs), g.sessionPubkey + ([g.kind] + (Le16(g.opsMask) + x)),
            LeI64(h.expiryTs), h.sessionPubkey + ([h.kind] + (Le16(h.opsMask) + y)));
    SplitEq(g.sessionPubkey, [g.kind] + (Le16(g.opsMask) + x), h.sessionPubkey, [h.kind] + (Le16(h.opsMask) + y));
    SplitEq([g.kind], Le16(g.opsMask) + x, [h.kind], Le16(h.opsMask) + y);
    SplitEq(Le16(g.opsMask), x, Le16(h.opsMask), y);
    LeI64Injective(g.expiryTs, h.expiryTs);
    Le16Injective(g.opsMask, h.opsMask);
    assert [g.kind][0] == [h.kind][0];
    GrantCapsInjective(g, h);
  }

  lemma GrantCapsInjective(g: GrantBody, h: GrantBody)
    requires BorshGrantCaps(g) == BorshGrantCaps(h)
    ensures g.caps == h.caps && g.lifetimeCap == h.lifetimeCap && g.programAllowlistId == h.programAllowlistId
    ensures g.displayLabel == h.displayLabel && g.priorAuthorityHash == h.priorAuthorityHash
  {
    hide Le, BorshGrantEnd;
    var x, y := BorshGrantEnd(g), BorshGrantEnd(h);
    var u, w := BorshAmounts(g.lifetimeCap) + x, BorshAmounts(h.lifetimeCap) + y;
    SplitEq(Le32(|g.caps|), BorshCaps(g.caps) + (Le32(|g.lifetimeCap|) + u),
            Le32(|h.caps|), BorshCaps(h.caps) + (Le32(|h.lifetimeCap|) + w));
    Le32Injective(|g.caps|, |h.caps|);
    CapsInjective(g.caps, h.caps, Le32(|g.lifetimeCap|) + u, Le32(|h.lifetimeCap|) + w);
    SplitEq(Le32(|g.lifetimeCap|), u, Le32(|h.lifetimeCap|), w);
    Le32Injective(|g.lifetimeCap|, |h.lifetimeCap|);
    AmountsInjective(g.lifetimeCap, h.lifetimeCap, x, y);
    GrantEndInjective(g, h);
  }

  lemma GrantEndInjective(g: GrantBody, h: GrantBody)
    requires BorshGrantEnd(g) == BorshGrantEnd(h)
    ensures g.programAllowlistId == h.programAllowlistId
    ensures g.displayLabel == h.displayLabel && g.priorAuthorityHash == h.priorAuthorityHash
  {
    hide Le;
    SplitEq(Le16(g.programAllowlistId), g.displayLabel + g.priorAuthorityHash,
            Le16(h.programAllowlistId), h.displayLabel + h.priorAuthorityHash);
    SplitEq(g.displayLabel, g.priorAuthorityHash, h.displayLabel, h.priorAuthorityHash);
    Le16Injective(g.programAllowlistId, h.programAllowlistId);
  }

  lemma TransferInjective(t: TransferBody, u: TransferBody)
    requires BorshTransfer(t) == BorshTransfer(u)
    ensures t == u
  {
    hide Le;
    var f, g: Bytes := [if t.native then 1 else 0], [if u.native then 1 else 0];
    SplitEq(f, t.mint + (t.destination + Le64(t.amount)), g, u.mint + (u.destination + Le64(u.amount)));
    SplitEq(t.mint, t.destination + Le64(t.amount), u.mint, u.destination + Le64(u.amount));
    SplitEq(t.destination, Le64(t.amount), u.destination, Le64(u.amount));
    Le64Injective(t.amount, u.amount);
    assert f[0] == g[0];
  }

  /** Equal `op ‖ borsh(body)` strings name the same operation and the same body. */
  lemma ActionInjective(a: Action, b: Action)
    requires ActionPreimage(a) == ActionPreimage(b)
    ensures a == b
  {
    hide BorshGrant, BorshTransfer;
    SplitEq([OpByte(a)], Borsh(a), [OpByte(b)], Borsh(b));
    assert [OpByte(a)][0] == [OpByte(b)][0];
    if a.GrantSession? {
      GrantInjective(a.grant, b.grant);
    } else if a.RevokeSession? {
      SplitEq(a.revoke.sessionPubkey, a.revoke.refundTo, b.revoke.sessionPubkey, b.revoke.refundTo);
    } else if a.RootTransfer? {
      TransferInjective(a.transfer, b.transfer);
    }
  }

  // ---------------------------------------------------------------- layouts

  /** The part of `s` from `o` on that is `n` long. */
  function Field(s: Bytes, o: nat, n: nat): Bytes
    requires o + n <= |s|
  {
    s[o..o + n]
  }

  lemma HeadField(a: Bytes, b: Bytes)
    ensures Field(a + b, 0, |a|) == a
    ensures forall o: nat, n: nat {:trigger Field(b, o, n)} :: o + n <= |b| ==> Field(a + b, |a| + o, n) == Field(b, o, n)
  {
    forall o: nat, n: nat | o + n <= |b| ensures Field(a + b, |a| + o, n) == Field(b, o, n) {
      assert (a + b)[|a| + o..|a| + o + n] == b[o..o + n];
    }
  }

  /** The permanent offsets of a cap on the wire. */
  lemma CapLayout(c: MintCap)
    ensures Field(BorshCap(c), 0, 32) == c.mint && FromLe(Field(BorshCap(c), 32, 8)) == c.perTx
    ensures FromLe(Field(BorshCap(c), 40, 8)) == c.perDay && FromLe(Field(BorshCap(c), 48, 8)) == c.per30d
  {
    hide Le, Field, FromLe;
    Widths();
    HeadField(c.mint, Le64(c.perTx) + (Le64(c.perDay) + Le64(c.per30d)));
    HeadField(Le64(c.perTx), Le64(c.perDay) + Le64(c.per30d));
    HeadField(Le64(c.perDay), Le64(c.per30d));
    HeadField(Le64(c.per30d), []);
    assert Le64(c.per30d) + [] == Le64(c.per30d);
    assert BorshCap(c) == c.mint + (Le64(c.perTx) + (Le64(c.perDay) + Le64(c.per30d)));
    assert Field(BorshCap(c), 32 + 0, 8) == Le64(c.perTx);
    assert Field(BorshCap(c), 32 + 8, 8) == Le64(c.perDay) by {
      assert Field(Le64(c.perTx) + (Le64(c.perDay) + Le64(c.per30d)), 8 + 0, 8) == Le64(c.perDay);
    }
    assert Field(BorshCap(c), 32 + 16, 8) == Le64(c.per30d) by {
      assert Field(Le64(c.perDay) + Le64(c.per30d), 8 + 0, 8) == Le64(c.per30d);
      assert Field(Le64(c.perTx) + (Le64(c.perDay) + Le64(c.per30d)), 8 + 8, 8) == Le64(c.per30d);
    }
    Le64Inverse(c.perTx);
    Le64Inverse(c.perDay);
    Le64Inverse(c.per30d);
  }

  lemma Le64Inverse(v: U64)
    ensures FromLe(Le64(v)) == v
  {
    Pow256Values();
    FromLeLe(v, 8);
  }

  lemma Le32Inverse(v: U32)
    ensures FromLe(Le32(v)) == v
  {
    Pow256Values();
    FromLeLe(v, 4);
  }

  lemma Le16Inverse(v: U16)
    ensures FromLe(Le16(v)) == v
  {
    Pow256Values();
    FromLeLe(v, 2);
  }

  /** The permanent offsets of a signed transfer. */
  lemma TransferLayout(t: TransferBody)
    ensures |BorshTransfer(t)| == 73 && BorshTransfer(t)[0] == (if t.native then 1 else 0)
    ensures Field(BorshTransfer(t), 1, 32) == t.mint && Field(BorshTransfer(t), 33, 32) == t.destination
    ensures FromLe(Field(BorshTransfer(t), 65, 8)) == t.amount
  {
    hide Le, Field, FromLe;
    Widths();
    var flag: Bytes := [if t.native then 1 else 0];
    var tail := t.destination + Le64(t.amount);
    HeadField(flag, t.mint + tail);
    HeadField(t.mint, tail);
    HeadField(t.destination, Le64(t.amount));
    HeadField(Le64(t.amount), []);
    assert Le64(t.amount) + [] == Le64(t.amount);
    assert BorshTransfer(t) == flag + (t.mint + tail);
    assert Field(BorshTransfer(t), 1 + 0, 32) == t.mint;
    assert Field(t.mint + tail, 32 + 0, 32) == t.destination;
    assert Field(BorshTransfer(t), 1 + 32, 32) == t.destination;
    assert Field(tail, 32 + 0, 8) == Le64(t.amount);
    assert Field(t.mint + tail, 32 + 32, 8) == Le64(t.amount);
    assert Field(BorshTransfer(t), 1 + 64, 8) == Le64(t.amount);
    Le64Inverse(t.amount);
  }

  /** The fixed part of a signed grant, up to its first vector. */
  lemma GrantLayout(g: GrantBody)
    ensures |BorshGrant(g)| >= 47
    ensures FromLe(Field(BorshGrant(g), 0, 8)) == if g.expiryTs >= 0 then g.expiryTs else g.expiryTs + U64_LIMIT
    ensures Field(BorshGrant(g), 8, 32) == g.sessionPubkey && Field(BorshGrant(g), 40, 1) == [g.kind]
    ensures FromLe(Field(BorshGrant(g), 41, 2)) == g.opsMask && FromLe(Field(BorshGrant(g), 43, 4)) == |g.caps|
  {
    hide Le, FromLe, Field, BorshCaps, BorshAmounts, BorshGrantEnd;
    Le64Inverse(Unsigned(g.expiryTs));
    Le16Inverse(g.opsMask);
    Le32Inverse(|g.caps|);
    Widths();
    var x := BorshCaps(g.caps) + (Le32(|g.lifetimeCap|) + (BorshAmounts(g.lifetimeCap) + BorshGrantEnd(g)));
    var rest := Le32(|g.caps|) + x;
    var ops := Le16(g.opsMask) + rest;
    var kind := [g.kind] + ops;
    var key := g.sessionPubkey + kind;
    assert BorshGrant(g) == LeI64(g.expiryTs) + key;
    HeadField(LeI64(g.expiryTs), key);
    HeadField(g.sessionPubkey, kind);
    HeadField([g.kind], ops);
    HeadField(Le16(g.opsMask), rest);
    HeadField(Le32(|g.caps|), x);
    assert Field(BorshGrant(g), 8 + 0, 32) == Field(key, 0, 32);
    assert Field(BorshGrant(g), 8 + 32, 1) == Field(key, 32 + 0, 1) == Field(kind, 0, 1);
    assert Field(BorshGrant(g), 8 + 33, 2) == Field(key, 32 + 1, 2) == Field(kind, 1 + 0, 2) == Field(ops, 0, 2);
    assert Field(BorshGrant(g), 8 + 35, 4) == Field(key, 32 + 3, 4) == Field(kind, 1 + 2, 4) == Field(ops, 2 + 0, 4);
  }

  /** Its last 50 bytes. */
  lemma GrantEndLayout(g: GrantBody)
    ensures |BorshGrantEnd(g)| == 50 && FromLe(Field(BorshGrantEnd(g), 0, 2)) == g.programAllowlistId
    ensures Field(BorshGrantEnd(g), 2, 16) == g.displayLabel && Field(BorshGrantEnd(g), 18, 32) == g.priorAuthorityHash
    ensures exists head :: BorshGrant(g) == head + BorshGrantEnd(g)
  {
    hide Le, FromLe, Field, BorshCaps, BorshAmounts;
    Le16Inverse(g.programAllowlistId);
    HeadField(Le16(g.programAllowlistId), g.displayLabel + g.priorAuthorityHash);
    HeadField(g.displayLabel, g.priorAuthorityHash);
    HeadField(g.priorAuthorityHash, []);
    assert g.priorAuthorityHash + [] == g.priorAuthorityHash;
    var tail := g.displayLabel + g.priorAuthorityHash;
    assert Field(BorshGrantEnd(g), 2 + 0, 16) == Field(tail, 0, 16);
    assert Field(BorshGrantEnd(g), 2 + 16, 32) == Field(tail, 16 + 0, 32);
    EndsWith(g);
  }

  lemma EndsWith(g: GrantBody)
    ensures exists head :: BorshGrant(g) == head + BorshGrantEnd(g)
  {
    hide Le, BorshCaps, BorshAmounts, BorshGrantEnd;
    var a, b, c := LeI64(g.expiryTs) + (g.sessionPubkey + ([g.kind] + Le16(g.opsMask))), Le32(|g.caps|) + BorshCaps(g.caps),
                   Le32(|g.lifetimeCap|) + BorshAmounts(g.lifetimeCap);
    var head := a + (b + c);
    assert BorshGrantCaps(g) == b + (c + BorshGrantEnd(g));
    assert BorshGrant(g) == a + BorshGrantCaps(g);
    assert BorshGrant(g) == head + BorshGrantEnd(g);
  }

  // ---------------------------------------------------------------- session authority

  /** "WARDEN/session-authority/v1" */
  const SESSION_AUTHORITY_DOMAIN: Bytes :=
    [0x57, 0x41, 0x52, 0x44, 0x45, 0x4E, 0x2F, 0x73, 0x65, 0x73, 0x73, 0x69, 0x6F, 0x6E, 0x2D, 0x61, 0x75, 0x74,
     0x68, 0x6F, 0x72, 0x69, 0x74, 0x79, 0x2F, 0x76, 0x31]

  /** The authority a re-grant keeps: identity, and every slot's cap and lifetime cap in order. */
  datatype Authority = Authority(account: Pubkey, pubkey: Pubkey, caps: seq<MintCap>, lifetimeCap: seq<U64>)

  function SlotBytes(caps: seq<MintCap>, lifetime: seq<U64>): Bytes
    requires |caps| == |lifetime|
  {
    if caps == [] then []
    else
      var n := |caps| - 1;
      SlotBytes(caps[..n], lifetime[..n]) + (BorshCap(caps[n]) + Le64(lifetime[n]))
  }

  function AuthorityPreimage(a: Authority): Bytes
    requires |a.caps| == |a.lifetimeCap|
  {
    SESSION_AUTHORITY_DOMAIN + (a.account + (a.pubkey + SlotBytes(a.caps, a.lifetimeCap)))
  }

  lemma {:induction false} SlotBytesInjective(c: seq<MintCap>, x: seq<U64>, d: seq<MintCap>, y: seq<U64>)
    requires |c| == |x| == |d| == |y| && SlotBytes(c, x) == SlotBytes(d, y)
    ensures c == d && x == y
    decreases |c|
  {
    hide BorshCap, Le64;
    if c != [] {
      var n := |c| - 1;
      SlotBytesLength(c[..n], x[..n]);
      SlotBytesLength(d[..n], y[..n]);
      Le64Width(x[n], y[n]);
      SplitEq(SlotBytes(c[..n], x[..n]), BorshCap(c[n]) + Le64(x[n]), SlotBytes(d[..n], y[..n]), BorshCap(d[n]) + Le64(y[n]));
      SplitEq(BorshCap(c[n]), Le64(x[n]), BorshCap(d[n]), Le64(y[n]));
      BorshCapInjective(c[n], d[n]);
      Le64Injective(x[n], y[n]);
      SlotBytesInjective(c[..n], x[..n], d[..n], y[..n]);
      assert c == c[..n] + [c[n]] && d == d[..n] + [d[n]] && x == x[..n] + [x[n]] && y == y[..n] + [y[n]];
    }
  }

  lemma {:induction false} SlotBytesLength(c: seq<MintCap>, x: seq<U64>)
    requires |c| == |x|
    ensures |SlotBytes(c, x)| == 64 * |c|
    decreases |c|
  {
    if c != [] { SlotBytesLength(c[..|c| - 1], x[..|c| - 1]); }
  }

  lemma AuthorityInjective(a: Authority, b: Authority)
    requires |a.caps| == |a.lifetimeCap| == |b.caps| == |b.lifetimeCap|
    requires AuthorityPreimage(a) == AuthorityPreimage(b)
    ensures a == b
  {
    hide SlotBytes;
    var x, y := SlotBytes(a.caps, a.lifetimeCap), SlotBytes(b.caps, b.lifetimeCap);
    SplitEq(SESSION_AUTHORITY_DOMAIN, a.account + (a.pubkey + x), SESSION_AUTHORITY_DOMAIN, b.account + (b.pubkey + y));
    SplitEq(a.account, a.pubkey + x, b.account, b.pubkey + y);
    SplitEq(a.pubkey, x, b.pubkey, y);
    SlotBytesInjective(a.caps, a.lifetimeCap, b.caps, b.lifetimeCap);
  }

  /** The buffer that `authority_hash` appends to, slot by slot. */
  method AuthorityBuffer(a: Authority) returns (buf: Bytes)
    requires |a.caps| == |a.lifetimeCap|
    ensures SESSION_AUTHORITY_DOMAIN + buf == AuthorityPreimage(a)
  {
    hide Le;
    buf := a.account;
    buf := buf + a.pubkey;
    for i := 0 to |a.caps|
      invariant buf == a.account + (a.pubkey + SlotBytes(a.caps[..i], a.lifetimeCap[..i]))
    {
      var c := a.caps[i];
      ghost var slot := BorshCap(c) + Le64(a.lifetimeCap[i]);
      ghost var before := buf;
      buf := buf + c.mint + Le64(c.perTx) + Le64(c.perDay) + Le64(c.per30d) + Le64(a.lifetimeCap[i]);
      assert buf == before + slot;
      SlotBytesStep(a, i);
      assert before + slot == a.account + (a.pubkey + (SlotBytes(a.caps[..i], a.lifetimeCap[..i]) + slot));
    }
    assert a.caps[..|a.caps|] == a.caps && a.lifetimeCap[..|a.caps|] == a.lifetimeCap;
  }

  lemma SlotBytesStep(a: Authority, i: nat)
    requires |a.caps| == |a.lifetimeCap| && i < |a.caps|
    ensures SlotBytes(a.caps[..i + 1], a.lifetimeCap[..i + 1])
         == SlotBytes(a.caps[..i], a.lifetimeCap[..i]) + (BorshCap(a.caps[i]) + Le64(a.lifetimeCap[i]))
  {
    hide BorshCap, Le64;
    assert a.caps[..i + 1][..i] == a.caps[..i] && a.lifetimeCap[..i + 1][..i] == a.lifetimeCap[..i];
  }

  // ---------------------------------------------------------------- the TypeScript encoder

  /** `Uint8Array.prototype.set`. */
  method Set(a: array<Byte>, o: nat, src: Bytes)
    requires o + |src| <= a.Length
    modifies a
    ensures a[..o + |src|] == old(a[..o]) + src
  {
    forall k | 0 <= k < |src| { a[o + k] := src[k]; }
  }

  predicate InRange(generation: int, policyVersion: int, rootNonce: int, expiryTs: int) {
    && 0 <= generation < U64_LIMIT && 0 <= policyVersion < 0x1_0000_0000
    && 0 <= rootNonce < U64_LIMIT && -I64_LIMIT <= expiryTs < I64_LIMIT
  }

  /**
    The mirror that writes at increasing offsets into one buffer: it throws exactly on malformed
    fields, and otherwise writes the very bytes of `TranscriptPreimage`.
  */
  method TranscriptBuffer(clusterTag: Bytes, programId: Bytes, account: Bytes, generation: int, policyVersion: int,
                          rootNonce: int, expiryTs: int, actionHash: Bytes)
    returns (r: Option<Bytes>)
    ensures r.Some? <==>
              && |clusterTag| == |programId| == |account| == |actionHash| == 32
              && InRange(generation, policyVersion, rootNonce, expiryTs)
    ensures r.Some? ==>
              r.value == TranscriptPreimage(Transcript(clusterTag, programId, account, generation, policyVersion,
                                                       rootNonce, expiryTs, actionHash))
  {
    hide Le64, Le32, LeI64, TranscriptPreimage;
    Widths();
    if |clusterTag| != 32 || |programId| != 32 || |account| != 32 || |actionHash| != 32 { return None; }
    if !InRange(generation, policyVersion, rootNonce, expiryTs) { return None; }
    var a := new Byte[|TRANSCRIPT_DOMAIN| + 32 + 32 + 32 + 8 + 4 + 8 + 8 + 32](i => 0);
    Set(a, 0, TRANSCRIPT_DOMAIN);
    var o := |TRANSCRIPT_DOMAIN|;
    Set(a, o, clusterTag);
    o := o + 32;
    Set(a, o, programId);
    o := o + 32;
    Set(a, o, account);
    o := o + 32;
    ghost var keys := a[..o];
    Set(a, o, Le64(generation));
    o := o + 8;
    Set(a, o, Le32(policyVersion));
    o := o + 4;
    Set(a, o, Le64(rootNonce));
    o := o + 8;
    Set(a, o, LeI64(expiryTs));
    o := o + 8;
    Set(a, o, actionHash);
    ghost var t := Transcript(clusterTag, programId, account, generation, policyVersion, rootNonce, expiryTs, actionHash);
    Regroup(keys, t);
    assert a[..] == a[..o + 32];
    return Some(a[..]);
  }

  /** The mirror of the action preimage: it throws exactly if the op is not a byte. */
  method ActionBuffer(op: int, args: Bytes) returns (r: Option<Bytes>)
    ensures r.Some? <==> 0 <= op < 0x100
    ensures forall a: Action {:trigger Borsh(a)} :: op == OpByte(a) && args == Borsh(a) ==> r == Some(ActionPreimage(a))
  {
    hide Borsh;
    if op < 0 || op > 0xFF { return None; }
    var a := new Byte[1 + |args|](i => 0);
    a[0] := op;
    Set(a, 1, args);
    assert a[..1] == [op];
    assert a[..] == a[..1 + |args|];
    return Some(a[..]);
  }

  lemma Regroup(keys: Bytes, t: Transcript)
    requires keys == [] + TRANSCRIPT_DOMAIN + t.clusterTag + t.programId + t.account
    ensures keys + Le64(t.generation) + Le32(t.policyVersion) + Le64(t.rootNonce) + LeI64(t.expiryTs) + t.actionHash
         == TranscriptPreimage(t)
  {
    hide Le;
    var a, b, c, d, e := Le64(t.generation), Le32(t.policyVersion), Le64(t.rootNonce), LeI64(t.expiryTs), t.actionHash;
    assert keys + a + b + c + d + e == keys + (a + (b + (c + (d + e))));
    var n := TranscriptNumbers(t);
    assert keys + n == TRANSCRIPT_DOMAIN + (t.clusterTag + (t.programId + (t.account + n)));
  }
}
