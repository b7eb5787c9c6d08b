/**
  Granting and revoking sessions. A grant is shape and policy checks, then a merge by mint into the session's slots.
  `MergeIsByMint` states when the merge succeeds and that it then updates a table keyed by mint,
  `UntouchedExactly` when a failing merge has written nothing, and `MergeIsSigned` that the signed
  document alone fixes the outcome.
*/
module Sessions {
  import opened Base
  import opened Buckets
  import opened Wire
  import opened Readings
  import opened State
  import opened PolicyRules
  import opened RootVerify
  import opened Lifecycle

  /** "session" */
  const SESSION_SEED: Bytes := [0x73, 0x65, 0x73, 0x73, 0x69, 0x6F, 0x6E]

  lemma SessionSeedIsText()
    ensures SESSION_SEED == Ascii("session")
  {
  }

  const MAX_CAPS_PER_GRANT: nat := 2
  const SESSION_KIND_ED25519: Byte := 0

  /** What a session account holds before its first grant. */
  const BLANK_SESSION := Session(
    0, 0, DEFAULT_KEY, DEFAULT_KEY, 0, 0, 0, 0, EmptySlots(8), EmptyAmounts(8), EmptyAmounts(8), 0, Zeros(16))

  // ---------------------------------------------------------------- argument checks

  /** The per-cap rules, cap by cap in order. */
  function CapShapes(caps: seq<MintCap>): Outcome {
    if caps == [] then Pass
    else
      var n := |caps| - 1;
      match CapShapes(caps[..n])
      case Fail(e) => Fail(e)
      case Pass =>
        if caps[n].mint == DEFAULT_KEY then Fail(InvalidAccountData)
        else if Position(caps[..n], caps[n].mint).Some? then Fail(InvalidAccountData)
        else Require(caps[n].perDay == 0 && caps[n].per30d == 0, SessionDayCapsUnsupported)
  }

  function ValidateShape(b: GrantBody): Outcome {
    if |b.caps| > MAX_CAPS_PER_GRANT then Fail(BadInstructionLayout)
    else if |b.lifetimeCap| != |b.caps| then Fail(BadInstructionLayout)
    else if b.kind != SESSION_KIND_ED25519 then Fail(InvalidAccountData)
    else if b.sessionPubkey == DEFAULT_KEY then Fail(InvalidAccountData)
    else CapShapes(b.caps)
  }

  predicate UnderCeiling(c: MintCap, ceiling: Slots) {
    var k := FindCap(ceiling, c.mint);
    && k.Some? && c.perTx <= ceiling[k.value].perTx && c.perDay <= ceiling[k.value].perDay
    && c.per30d <= ceiling[k.value].per30d
  }

  function ValidateAgainstPolicy(p: Policy, b: GrantBody, now: I64): Outcome {
    if b.expiryTs <= now then Fail(Expired)
    else
      var maxExpiry := now + p.maxSessionLifeSecs;
      if maxExpiry >= I64_LIMIT || maxExpiry < -I64_LIMIT then Fail(Overflow)
      else if b.expiryTs > maxExpiry then Fail(InvalidPolicy)
      else if !SubMask(b.opsMask, OPS_MASK_KNOWN) then Fail(OpNotAllowed)
      else if !SubMask(b.opsMask, p.sessionOpsCeiling) then Fail(OpNotAllowed)
      else if b.programAllowlistId != 0 then Fail(ProgramAllowlistUnsupported)
      else Require(forall k :: 0 <= k < |b.caps| ==> UnderCeiling(b.caps[k], p.sessionCeiling), CapExceeded)
  }

  // ---------------------------------------------------------------- the merge

  /** The slot a cap goes to: the one that holds its mint, else the first empty one. */
  function SlotFor(caps: Slots, mint: Pubkey): Option<nat> {
    var held := FindCap(caps, mint);
    if held.Some? then held else Position(caps, DEFAULT_KEY)
  }

  /** What the slot has spent; an empty slot has no history. */
  function SpentIn(s: Session, slot: nat): U64
    requires slot < 8
  {
    if s.caps[slot].mint == DEFAULT_KEY then 0 else s.lifetimeSpent[slot]
  }

  function MergeOne(s: Session, c: MintCap, lifetime: U64): Result<Session> {
    match SlotFor(s.caps, c.mint)
    case None => Err(CapExceeded)
    case Some(slot) =>
      if lifetime < SpentIn(s, slot) then Err(CapExceeded)
      else
        Ok(s.(caps := s.caps[slot := c], lifetimeCap := s.lifetimeCap[slot := lifetime],
              lifetimeSpent := s.lifetimeSpent[slot := SpentIn(s, slot)]))
  }

  function MergeCaps(s: Session, caps: seq<MintCap>, lifetime: seq<U64>): Result<Session> {
    if caps == [] then Ok(s)
    else
      var n := |caps| - 1;
      var t :- MergeCaps(s, caps[..n], lifetime);
      :- Require(n < |lifetime|, BadInstructionLayout);
      MergeOne(t, caps[n], lifetime[n])
  }

  // ---------------------------------------------------------------- the instruction

  /** The digest a grant must have been signed over: of the session's authority, or zero for a new one. */
  function PriorHash(env: Env, s: Session): Hash {
    if s.version == 0 then Zeros(32) else env.keccak(AuthorityPreimage(AuthorityOf(s)))
  }

  /** A new session's identity and empty table; an existing one must be the one named. */
  function Opened(s: Session, key: Pubkey, b: GrantBody, bump: Byte): Result<Session> {
    if s.version == 0 then
      Ok(s.(version := 1, bump := bump, account := key, pubkey := b.sessionPubkey, caps := EmptySlots(8),
            lifetimeCap := EmptyAmounts(8), lifetimeSpent := EmptyAmounts(8)))
    else if s.account != key || s.pubkey != b.sessionPubkey then Err(Unauthorized)
    else Ok(s)
  }

  /** The fields that every grant replaces outright. */
  function Blessed(s: Session, b: GrantBody, generation: U64): Session {
    s.(kind := b.kind, expiryTs := b.expiryTs, opsMask := b.opsMask, programAllowlistId := b.programAllowlistId,
       displayLabel := b.displayLabel, generationAtGrant := generation)
  }

  function Upsert(s: Session, key: Pubkey, b: GrantBody, bump: Byte, generation: U64): Result<Session> {
    var t :- Opened(s, key, b, bump);
    MergeCaps(Blessed(t, b, generation), b.caps, b.lifetimeCap)
  }

  /** Validation comes after the ceremony; then the signed prior state must be the actual one. */
  function AfterCeremony(env: Env, a: Account, key: Pubkey, s: Session, bump: Byte, now: I64, b: GrantBody): Result<Session> {
    var shape := ValidateShape(b);
    :- shape;
    :- ValidateAgainstPolicy(a.policy, b, now);
    :- Require(PriorHash(env, s) == b.priorAuthorityHash, SessionPriorStateMismatch);
    Upsert(s, key, b, bump, a.generation)
  }

  datatype GrantResult = GrantResult(account: Account, session: Session)

  function Grant(env: Env, a: Account, key: Pubkey, s: Session, bump: Byte, cx: Context, root: RootArgs, b: GrantBody)
    : Result<GrantResult>
  {
    var home := CheckAccountPda(env, key, a);
    :- home;
    :- CheckNotFrozen(a, Frozen);
    var a' :- VerifyRoot(env, a, cx, root, key, ActionHash(env, GrantSession(b)));
    var s' :- AfterCeremony(env, a', key, s, bump, cx.now, b);
    Ok(GrantResult(a', s'))
  }

  // ---------------------------------------------------------------- revocation

  /** A session account as it is passed in. */
  datatype SessionRef = SessionRef(key: Pubkey, session: Session)

  /** The session names this account and sits at the address derived from its own fields. */
  function CheckSessionPda(env: Env, s: SessionRef, key: Pubkey): Outcome {
    if s.session.account != key then Fail(Unauthorized)
    else
      Require(env.createAddress([SESSION_SEED, key, s.session.pubkey, [s.session.bump]]) == Some(s.key), Unauthorized)
  }

  /** Under the root: the named session, its rent to the signed payer. Not gated by a freeze. */
  function RevokeByRoot(env: Env, a: Account, key: Pubkey, s: SessionRef, payer: Pubkey, cx: Context, root: RootArgs,
                        b: RevokeBody): Result<Account>
  {
    var named := s.session.pubkey == b.sessionPubkey;
    :- Require(named, Unauthorized);
    :- Require(payer == b.refundTo, Unauthorized);
    :- CheckSessionPda(env, s, key);
    :- CheckAccountPda(env, key, a);
    VerifyRoot(env, a, cx, root, key, ActionHash(env, RevokeSession(b)))
  }

  /** By the session's own key. Not gated by a freeze either. */
  function RevokeBySelf(env: Env, a: Account, key: Pubkey, s: SessionRef, signer: Pubkey): Outcome {
    if s.session.pubkey != signer then Fail(Unauthorized)
    else
      match CheckAccountPda(env, key, a)
      case Fail(e) => Fail(e)
      case Pass => CheckSessionPda(env, s, key)
  }

  // ---------------------------------------------------------------- the table by mint

  function SpentOf(s: Session, mint: Pubkey): nat {
    var k := FindCap(s.caps, mint);
    if k.None? then 0 else s.lifetimeSpent[k.value]
  }

  function LifetimeOf(s: Session, mint: Pubkey): nat {
    var k := FindCap(s.caps, mint);
    if k.None? then 0 else s.lifetimeCap[k.value]
  }

  /** The occupied slots come first and hold distinct mints; the others are blank. */
  ghost predicate Packed(s: Session, n: nat) {
    && n <= 8
    && (forall k :: 0 <= k < n ==> s.caps[k].mint != DEFAULT_KEY)
    && (forall j, k :: 0 <= j < k < n ==> s.caps[j].mint != s.caps[k].mint)
    && (forall k :: n <= k < 8 ==> s.caps[k] == EMPTY_CAP && s.lifetimeCap[k] == 0 && s.lifetimeSpent[k] == 0)
  }

  /** Every held mint is grantable under the policy, with no more per transaction, and within its lifetime cap. */
  ghost predicate SlotGranted(s: Session, p: Policy, k: nat)
    requires k < 8
  {
    && UnderCeiling(s.caps[k], p.sessionCeiling) && s.caps[k].perDay == s.caps[k].per30d == 0
    && s.lifetimeSpent[k] <= s.lifetimeCap[k]
  }

  ghost predicate TableOfSize(s: Session, p: Policy, n: nat) {
    Packed(s, n) && forall k: nat :: k < n ==> SlotGranted(s, p, k)
  }

  ghost predicate TableOk(s: Session, p: Policy) {
    exists n: nat :: TableOfSize(s, p, n)
  }

  lemma FindInPacked(s: Session, n: nat, mint: Pubkey)
    requires Packed(s, n) && mint != DEFAULT_KEY
    ensures FindCap(s.caps, mint).Some? ==> FindCap(s.caps, mint).value < n
    ensures forall k :: 0 <= k < n && s.caps[k].mint == mint ==> FindCap(s.caps, mint) == Some(k)
    ensures FindCap(s.caps, mint).None? && n < 8 ==> SlotFor(s.caps, mint) == Some(n)
  {
    if n < 8 {
      assert s.caps[n] == EMPTY_CAP;
    }
  }

  /** Pigeonhole: a policy has at most four mints, so a session never runs out of its eight slots. */
  lemma SlotLeft(s: Session, p: Policy, n: nat)
    requires PolicyOk(p) && TableOfSize(s, p, n)
    ensures n <= 4
  {
    hide ValidatePolicy;
    if n >= 5 {
      forall k | 0 <= k < 5 ensures CeilingSlot(s, p, k) < 4 {
        assert SlotGranted(s, p, k);
        CeilingBelowFour(p, s.caps[k].mint);
      }
      DifferentCeilings(s, p, n);
      FiveInFour(CeilingSlot(s, p, 0), CeilingSlot(s, p, 1), CeilingSlot(s, p, 2), CeilingSlot(s, p, 3),
                 CeilingSlot(s, p, 4));
    }
  }

  function CeilingSlot(s: Session, p: Policy, k: nat): nat
    requires k < 8
  {
    var at := FindCap(p.sessionCeiling, s.caps[k].mint);
    if at.Some? then at.value else 8 + k
  }

  lemma DifferentCeilings(s: Session, p: Policy, n: nat)
    requires Packed(s, n)
    ensures forall j, k :: 0 <= j < k < n ==> CeilingSlot(s, p, j) != CeilingSlot(s, p, k)
  {
  }

  lemma CeilingBelowFour(p: Policy, mint: Pubkey)
    requires PolicyOk(p) && FindCap(p.sessionCeiling, mint).Some?
    ensures FindCap(p.sessionCeiling, mint).value < 4
  {
    hide ValidatePolicy;
    var n :| 0 <= n <= 4 && UsedSlots(p, n);
    assert EMPTY_CAP.mint == DEFAULT_KEY;
  }

  lemma FiveInFour(a: nat, b: nat, c: nat, d: nat, e: nat)
    requires a < 4 && b < 4 && c < 4 && d < 4 && e < 4
    ensures a == b || a == c || a == d || a == e || b == c || b == d || b == e || c == d || c == e || d == e
  {
  }

  // ---------------------------------------------------------------- what the merge does to the table

  /** Everything a merge leaves alone. */
  ghost predicate SameIdentity(s: Session, r: Session) {
    r == s.(caps := r.caps, lifetimeCap := r.lifetimeCap, lifetimeSpent := r.lifetimeSpent)
  }

  /** `r` is `s` with the listed limits overlaid mint by mint: no held slot moves and no spending is forgotten. */
  ghost predicate Overlaid(s: Session, r: Session, caps: seq<MintCap>, lifetime: seq<U64>)
    requires |caps| <= |lifetime|
  {
    && SameIdentity(s, r)
    && forall mint :: OverlaidAt(s, r, caps, lifetime, mint)
  }

  ghost predicate OverlaidAt(s: Session, r: Session, caps: seq<MintCap>, lifetime: seq<U64>, mint: Pubkey)
    requires |caps| <= |lifetime|
  {
    && SpentOf(r, mint) == SpentOf(s, mint)
    && (FindCap(s.caps, mint).Some? ==> FindCap(r.caps, mint) == FindCap(s.caps, mint))
    && match FindCap(caps, mint)
       case Some(k) => Lookup(r.caps, mint) == Some(caps[k]) && LifetimeOf(r, mint) == lifetime[k]
       case None => Lookup(r.caps, mint) == Lookup(s.caps, mint) && LifetimeOf(r, mint) == LifetimeOf(s, mint)
  }

  ghost predicate Grantable(c: MintCap, p: Policy) {
    && c.mint != DEFAULT_KEY && c.perDay == c.per30d == 0 && Lookup(p.sessionCeiling, c.mint).Some?
    && c.perTx <= Lookup(p.sessionCeiling, c.mint).value.perTx
  }

  lemma GrantableFits(c: MintCap, p: Policy)
    ensures Grantable(c, p) <==> c.mint != DEFAULT_KEY && c.perDay == c.per30d == 0 && UnderCeiling(c, p.sessionCeiling)
  {
    hide FindCap;
  }

  lemma MergeOneSucceeds(s: Session, p: Policy, n: nat, c: MintCap, lifetime: U64)
    requires PolicyOk(p) && TableOfSize(s, p, n) && Grantable(c, p)
    ensures SlotFor(s.caps, c.mint).Some? && SlotFor(s.caps, c.mint).value < 8
    ensures MergeOne(s, c, lifetime).Ok? <==> lifetime >= SpentOf(s, c.mint)
    ensures SpentIn(s, SlotFor(s.caps, c.mint).value) == SpentOf(s, c.mint)
    ensures SlotFor(s.caps, c.mint).value <= n
  {
    hide PolicyOk, SlotGranted, UnderCeiling;
    SlotLeft(s, p, n);
    FindInPacked(s, n, c.mint);
  }

  lemma MergeOneTable(s: Session, p: Policy, n: nat, c: MintCap, lifetime: U64)
    requires PolicyOk(p) && TableOfSize(s, p, n) && Grantable(c, p) && MergeOne(s, c, lifetime).Ok?
    ensures TableOk(MergeOne(s, c, lifetime).value, p)
  {
    hide PolicyOk, UnderCeiling, FindCap;
    GrantableFits(c, p);
    MergeOneSucceeds(s, p, n, c, lifetime);
    FindInPacked(s, n, c.mint);
    SlotLeft(s, p, n);
    var r, slot := MergeOne(s, c, lifetime).value, SlotFor(s.caps, c.mint).value;
    var size := if slot == n then n + 1 else n;
    forall k: nat | k < size ensures SlotGranted(r, p, k) {
      if k != slot { assert SlotGranted(s, p, k); }
    }
    if slot < n { HeldIsSlot(s, n, slot, c.mint); }
    MergedPacked(s, n, c, lifetime, slot);
    assert TableOfSize(r, p, size);
  }

  lemma HeldIsSlot(s: Session, n: nat, slot: nat, mint: Pubkey)
    requires Packed(s, n) && slot < n && SlotFor(s.caps, mint) == Some(slot)
    ensures s.caps[slot].mint == mint
  {
    hide FindCap;
  }

  lemma MergedPacked(s: Session, n: nat, c: MintCap, lifetime: U64, slot: nat)
    requires Packed(s, n) && slot <= n && slot < 8 && c.mint != DEFAULT_KEY && SlotFor(s.caps, c.mint) == Some(slot)
    requires slot < n ==> s.caps[slot].mint == c.mint
    ensures Packed(s.(caps := s.caps[slot := c], lifetimeCap := s.lifetimeCap[slot := lifetime],
                      lifetimeSpent := s.lifetimeSpent[slot := SpentIn(s, slot)]), if slot == n then n + 1 else n)
  {
    hide Position;
    if slot == n { assert FindCap(s.caps, c.mint).None?; }
  }

  lemma {:induction false} FindUpdate(caps: seq<MintCap>, slot: nat, c: MintCap, mint: Pubkey)
    requires slot < |caps| && c.mint != DEFAULT_KEY
    requires caps[slot].mint == c.mint || (caps[slot].mint == DEFAULT_KEY && FindCap(caps, c.mint).None?)
    requires FindCap(caps, c.mint).Some? ==> FindCap(caps, c.mint) == Some(slot)
    ensures FindCap(caps[slot := c], mint) == if mint == c.mint then Some(slot) else FindCap(caps, mint)
    decreases |caps|
  {
    var next := caps[slot := c];
    if slot == 0 {
      assert next[1..] == caps[1..];
    } else {
      assert next[1..] == caps[1..][slot - 1 := c];
      FindUpdate(caps[1..], slot - 1, c, mint);
    }
  }

  lemma MergeOneOverlays(s: Session, p: Policy, n: nat, c: MintCap, lifetime: U64)
    requires PolicyOk(p) && TableOfSize(s, p, n) && Grantable(c, p) && MergeOne(s, c, lifetime).Ok?
    ensures Overlaid(s, MergeOne(s, c, lifetime).value, [c], [lifetime])
  {
    hide PolicyOk, UnderCeiling, FindCap, SlotGranted, OverlaidAt;
    MergeOneSucceeds(s, p, n, c, lifetime);
    FindInPacked(s, n, c.mint);
    var slot := SlotFor(s.caps, c.mint).value;
    if slot < n { HeldIsSlot(s, n, slot, c.mint); }
    forall mint ensures OverlaidAt(s, MergeOne(s, c, lifetime).value, [c], [lifetime], mint) {
      FindUpdate(s.caps, slot, c, mint);
      MergeOneAt(s, c, lifetime, slot, mint);
    }
  }

  lemma MergeOneAt(s: Session, c: MintCap, lifetime: U64, slot: nat, mint: Pubkey)
    requires slot < 8 && c.mint != DEFAULT_KEY && SpentIn(s, slot) == SpentOf(s, c.mint)
    requires SlotFor(s.caps, c.mint) == Some(slot) && MergeOne(s, c, lifetime).Ok?
    requires FindCap(s.caps[slot := c], mint) == if mint == c.mint then Some(slot) else FindCap(s.caps, mint)
    requires FindCap(s.caps, mint).Some? ==> s.caps[slot].mint == c.mint || s.caps[slot].mint == DEFAULT_KEY
    ensures OverlaidAt(s, MergeOne(s, c, lifetime).value, [c], [lifetime], mint)
  {
    hide Position;
    OneCap(c, mint);
    hide FindCap;
  }

  lemma OneCap(c: MintCap, mint: Pubkey)
    requires c.mint != DEFAULT_KEY
    ensures FindCap([c], mint) == if c.mint == mint then Some(0) else None
  {
  }

  lemma {:induction false} FindSnoc(caps: seq<MintCap>, c: MintCap, mint: Pubkey)
    requires c.mint != DEFAULT_KEY
    ensures FindCap(caps + [c], mint) ==
            if FindCap(caps, mint).Some? then FindCap(caps, mint) else if c.mint == mint then Some(|caps|) else None
  {
    if caps == [] {
      assert caps + [c] == [c];
    } else {
      assert (caps + [c])[1..] == caps[1..] + [c];
      FindSnoc(caps[1..], c, mint);
    }
  }

  /** The new caps of a grant: real, grantable and distinct. */
  ghost predicate GrantableCaps(caps: seq<MintCap>, p: Policy) {
    (forall k :: 0 <= k < |caps| ==> Grantable(caps[k], p)) && DistinctMints(caps)
  }

  /** No lifetime cap is below what its mint has already spent. */
  ghost predicate CoversSpending(s: Session, caps: seq<MintCap>, lifetime: seq<U64>)
    requires |caps| <= |lifetime|
  {
    forall k :: 0 <= k < |caps| ==> lifetime[k] >= SpentOf(s, caps[k].mint)
  }

  /**
    The merge never runs out of slots: it fails only if some lifetime cap is below what was spent, and
    otherwise overlays the listed limits and keeps the table in order.
  */
  lemma {:induction false} MergeIsByMint(s: Session, p: Policy, caps: seq<MintCap>, lifetime: seq<U64>)
    requires PolicyOk(p) && TableOk(s, p) && GrantableCaps(caps, p) && |caps| <= |lifetime|
    ensures MergeCaps(s, caps, lifetime).Ok? <==> CoversSpending(s, caps, lifetime)
    ensures MergeCaps(s, caps, lifetime).Ok? ==>
              var r := MergeCaps(s, caps, lifetime).value;
              TableOk(r, p) && Overlaid(s, r, caps, lifetime)
    ensures MergeCaps(s, caps, lifetime).Err? ==> MergeCaps(s, caps, lifetime).error == CapExceeded
    decreases |caps|
  {
    hide PolicyOk, TableOk, Grantable, FindCap, MergeOne, SpentOf, OverlaidAt;
    if caps == [] {
      NothingOverlaid(s, lifetime);
    } else {
      var n := |caps| - 1;
      assert caps == caps[..n] + [caps[n]];
      MergeIsByMint(s, p, caps[..n], lifetime);
      if MergeCaps(s, caps[..n], lifetime).Ok? {
        var t := MergeCaps(s, caps[..n], lifetime).value;
        assert OverlaidAt(s, t, caps[..n], lifetime, caps[n].mint);
        MergeNext(s, p, t, caps[..n], caps[n], lifetime);
      }
    }
  }

  lemma NothingOverlaid(s: Session, lifetime: seq<U64>)
    ensures Overlaid(s, s, [], lifetime)
  {
    assert forall mint :: FindCap([], mint).None?;
  }

  lemma MergeNext(s: Session, p: Policy, t: Session, prior: seq<MintCap>, c: MintCap, lifetime: seq<U64>)
    requires PolicyOk(p) && TableOk(t, p) && Grantable(c, p) && |prior| < |lifetime|
    requires Overlaid(s, t, prior, lifetime) && DistinctMints(prior + [c])
    ensures MergeOne(t, c, lifetime[|prior|]).Ok? <==> lifetime[|prior|] >= SpentOf(s, c.mint)
    ensures MergeOne(t, c, lifetime[|prior|]).Ok? ==>
              var r := MergeOne(t, c, lifetime[|prior|]).value;
              TableOk(r, p) && Overlaid(s, r, prior + [c], lifetime)
    ensures MergeOne(t, c, lifetime[|prior|]).Err? ==> MergeOne(t, c, lifetime[|prior|]).error == CapExceeded
  {
    hide PolicyOk, TableOfSize, UnderCeiling, FindCap, OverlaidAt, SpentOf;
    var n: nat :| TableOfSize(t, p, n);
    var limit := lifetime[|prior|];
    assert OverlaidAt(s, t, prior, lifetime, c.mint);
    SpentKept(s, t, prior, lifetime, c.mint);
    MergeOneSucceeds(t, p, n, c, limit);
    if MergeOne(t, c, limit).Ok? {
      var r := MergeOne(t, c, limit).value;
      MergeOneTable(t, p, n, c, limit);
      MergeOneOverlays(t, p, n, c, limit);
      forall mint ensures OverlaidAt(s, r, prior + [c], lifetime, mint) {
        assert OverlaidAt(s, t, prior, lifetime, mint) && OverlaidAt(t, r, [c], [limit], mint);
        OverlayTwice(s, t, r, prior, c, lifetime, mint);
      }
    }
  }

  lemma SpentKept(s: Session, t: Session, prior: seq<MintCap>, lifetime: seq<U64>, mint: Pubkey)
    requires |prior| <= |lifetime| && OverlaidAt(s, t, prior, lifetime, mint)
    ensures SpentOf(t, mint) == SpentOf(s, mint)
  {
    hide FindCap, SpentOf;
  }

  lemma OverlayTwice(s: Session, t: Session, r: Session, prior: seq<MintCap>, c: MintCap, lifetime: seq<U64>, mint: Pubkey)
    requires |prior| < |lifetime| && c.mint != DEFAULT_KEY && DistinctMints(prior + [c])
    requires OverlaidAt(s, t, prior, lifetime, mint) && OverlaidAt(t, r, [c], [lifetime[|prior|]], mint)
    ensures OverlaidAt(s, r, prior + [c], lifetime, mint)
  {
    hide SpentOf, LifetimeOf, Lookup;
    FindSnoc(prior, c, mint);
    OneCap(c, mint);
    hide FindCap;
    if FindCap(prior, mint).Some? {
      assert (prior + [c])[FindCap(prior, mint).value].mint != (prior + [c])[|prior|].mint;
    }
  }

  // ---------------------------------------------------------------- what a failing merge leaves behind

  /** The session as the merge loop leaves it: every cap before the first refused one is written. */
  function LeftBehind(s: Session, caps: seq<MintCap>, lifetime: seq<U64>): Session {
    if caps == [] then s
    else
      var n := |caps| - 1;
      var t := LeftBehind(s, caps[..n], lifetime);
      if MergeCaps(s, caps[..n], lifetime).Err? || n >= |lifetime| then t
      else
        match MergeOne(t, caps[n], lifetime[n])
        case Ok(r) => r
        case Err(_) => t
  }

  lemma {:induction false} LeftIsMerged(s: Session, caps: seq<MintCap>, lifetime: seq<U64>)
    requires MergeCaps(s, caps, lifetime).Ok?
    ensures LeftBehind(s, caps, lifetime) == MergeCaps(s, caps, lifetime).value
    decreases |caps|
  {
    hide MergeOne;
    if caps != [] { LeftIsMerged(s, caps[..|caps| - 1], lifetime); }
  }

  /** The session already holds exactly this limit for the mint. */
  ghost predicate Restates(s: Session, c: MintCap, lifetime: U64) {
    Lookup(s.caps, c.mint) == Some(c) && LifetimeOf(s, c.mint) == lifetime
  }

  lemma RestatedIsSame(s: Session, c: MintCap, lifetime: U64)
    requires Restates(s, c, lifetime) && lifetime >= SpentOf(s, c.mint)
    ensures MergeOne(s, c, lifetime) == Ok(s)
  {
    hide FindCap, Position;
    var k := FindCap(s.caps, c.mint).value;
    assert s.caps[k := c] == s.caps && s.lifetimeCap[k := lifetime] == s.lifetimeCap;
    assert s.lifetimeSpent[k := SpentIn(s, k)] == s.lifetimeSpent;
  }

  /** The number of leading caps whose lifetime covers the spending of their mint. */
  function CoveredPrefix(s: Session, caps: seq<MintCap>, lifetime: seq<U64>): (k: nat)
    requires |caps| <= |lifetime|
    ensures k <= |caps|
  {
    if caps == [] then 0
    else
      var n := |caps| - 1;
      var k := CoveredPrefix(s, caps[..n], lifetime);
      if k < n || lifetime[n] < SpentOf(s, caps[n].mint) then k else n + 1
  }

  lemma {:induction false} CoveredPrefixMeans(s: Session, caps: seq<MintCap>, lifetime: seq<U64>)
    requires |caps| <= |lifetime|
    ensures var k := CoveredPrefix(s, caps, lifetime);
            CoversSpending(s, caps[..k], lifetime) && (k < |caps| ==> lifetime[k] < SpentOf(s, caps[k].mint))
    decreases |caps|
  {
    hide SpentOf;
    if caps != [] {
      var n := |caps| - 1;
      var k := CoveredPrefix(s, caps[..n], lifetime);
      CoveredPrefixMeans(s, caps[..n], lifetime);
      assert caps[..n][..k] == caps[..k];
      forall j | 0 <= j < k ensures caps[..k][j] == caps[j] {}
    }
  }

  lemma PrefixGrantable(caps: seq<MintCap>, p: Policy, n: nat)
    requires GrantableCaps(caps, p) && n <= |caps|
    ensures GrantableCaps(caps[..n], p)
  {
    hide Grantable;
  }

  /** After the first refused cap nothing more is written. */
  lemma {:induction false} LeftAtFirst(s: Session, p: Policy, caps: seq<MintCap>, lifetime: seq<U64>, k: nat)
    requires PolicyOk(p) && TableOk(s, p) && GrantableCaps(caps, p) && |caps| <= |lifetime|
    requires k < |caps| && CoversSpending(s, caps[..k], lifetime) && lifetime[k] < SpentOf(s, caps[k].mint)
    ensures MergeCaps(s, caps[..k], lifetime).Ok?
    ensures LeftBehind(s, caps, lifetime) == MergeCaps(s, caps[..k], lifetime).value
    decreases |caps|
  {
    hide PolicyOk, TableOk, GrantableCaps, Overlaid, SpentOf, MergeOne;
    var n := |caps| - 1;
    PrefixGrantable(caps, p, k);
    PrefixGrantable(caps, p, n);
    MergeIsByMint(s, p, caps[..k], lifetime);
    MergeIsByMint(s, p, caps[..n], lifetime);
    MergeIsByMint(s, p, caps, lifetime);
    if k == n {
      LeftIsMerged(s, caps[..n], lifetime);
    } else {
      assert caps[..n][..k] == caps[..k] && caps[..n][k] == caps[k];
      LeftAtFirst(s, p, caps[..n], lifetime, k);
    }
  }

  lemma {:induction false} RestatedAll(s: Session, caps: seq<MintCap>, lifetime: seq<U64>)
    requires |caps| <= |lifetime| && CoversSpending(s, caps, lifetime)
    requires forall j :: 0 <= j < |caps| ==> Restates(s, caps[j], lifetime[j])
    ensures MergeCaps(s, caps, lifetime) == Ok(s)
    decreases |caps|
  {
    hide Restates, SpentOf, MergeOne;
    if caps != [] {
      var n := |caps| - 1;
      RestatedAll(s, caps[..n], lifetime);
      RestatedIsSame(s, caps[n], lifetime[n]);
    }
  }

  lemma OverlaidRestates(s: Session, caps: seq<MintCap>, lifetime: seq<U64>, p: Policy, j: nat)
    requires |caps| <= |lifetime| && Overlaid(s, s, caps, lifetime) && GrantableCaps(caps, p) && j < |caps|
    ensures Restates(s, caps[j], lifetime[j])
  {
    hide SpentOf, UnderCeiling, LifetimeOf, Lookup;
    assert OverlaidAt(s, s, caps, lifetime, caps[j].mint);
    assert Grantable(caps[j], p);
    assert FindCap(caps, caps[j].mint) == Some(j);
  }

  lemma UntouchedRestates(s: Session, p: Policy, caps: seq<MintCap>, lifetime: seq<U64>)
    requires PolicyOk(p) && TableOk(s, p) && GrantableCaps(caps, p) && |caps| <= |lifetime|
    requires MergeCaps(s, caps, lifetime) == Ok(s)
    ensures forall j :: 0 <= j < |caps| ==> Restates(s, caps[j], lifetime[j])
  {
    hide PolicyOk, TableOk, GrantableCaps, Overlaid, Restates, MergeCaps;
    MergeIsByMint(s, p, caps, lifetime);
    forall j | 0 <= j < |caps| ensures Restates(s, caps[j], lifetime[j]) { OverlaidRestates(s, caps, lifetime, p, j); }
  }

  /** Every cap before the k-th restates the limit the session already holds. */
  ghost predicate RestatesBefore(s: Session, caps: seq<MintCap>, lifetime: seq<U64>, k: nat)
    requires k <= |caps| <= |lifetime|
  {
    forall j :: 0 <= j < k ==> Restates(s, caps[j], lifetime[j])
  }

  lemma MergedIsSame(s: Session, p: Policy, caps: seq<MintCap>, lifetime: seq<U64>, k: nat)
    requires PolicyOk(p) && TableOk(s, p) && GrantableCaps(caps, p) && k <= |caps| <= |lifetime|
    requires CoversSpending(s, caps[..k], lifetime)
    ensures MergeCaps(s, caps[..k], lifetime) == Ok(s) <==> RestatesBefore(s, caps, lifetime, k)
  {
    hide PolicyOk, TableOk, GrantableCaps, CoversSpending, Restates, MergeCaps;
    PrefixGrantable(caps, p, k);
    if MergeCaps(s, caps[..k], lifetime) == Ok(s) {
      UntouchedRestates(s, p, caps[..k], lifetime);
      forall j | 0 <= j < k ensures Restates(s, caps[j], lifetime[j]) { assert caps[..k][j] == caps[j]; }
    } else if RestatesBefore(s, caps, lifetime, k) {
      RestatedAll(s, caps[..k], lifetime);
    }
  }

  lemma SomeCapRefused(s: Session, p: Policy, caps: seq<MintCap>, lifetime: seq<U64>)
    requires PolicyOk(p) && TableOk(s, p) && GrantableCaps(caps, p) && |caps| <= |lifetime|
    requires MergeCaps(s, caps, lifetime).Err?
    ensures CoveredPrefix(s, caps, lifetime) < |caps|
  {
    hide PolicyOk, TableOk, GrantableCaps, CoversSpending, CoveredPrefix, MergeCaps;
    CoveredPrefixMeans(s, caps, lifetime);
    MergeIsByMint(s, p, caps, lifetime);
    assert caps[..|caps|] == caps;
  }

  /**
    A failing merge leaves the session untouched exactly if every cap before the first refused one restates
    the limit the session already holds; with the two caps a grant may carry, if the first one is refused
    or restates.
  */
  lemma UntouchedExactly(s: Session, p: Policy, caps: seq<MintCap>, lifetime: seq<U64>)
    requires PolicyOk(p) && TableOk(s, p) && GrantableCaps(caps, p) && |caps| <= |lifetime|
    requires MergeCaps(s, caps, lifetime).Err?
    ensures CoveredPrefix(s, caps, lifetime) < |caps|
    ensures LeftBehind(s, caps, lifetime) == s <==>
              RestatesBefore(s, caps, lifetime, CoveredPrefix(s, caps, lifetime))
    ensures |caps| <= MAX_CAPS_PER_GRANT ==>
              (LeftBehind(s, caps, lifetime) == s <==>
                 lifetime[0] < SpentOf(s, caps[0].mint) || Restates(s, caps[0], lifetime[0]))
  {
    hide PolicyOk, TableOk, GrantableCaps, Overlaid, SpentOf, MergeCaps, Restates, LeftBehind, CoveredPrefix;
    var k := CoveredPrefix(s, caps, lifetime);
    CoveredPrefixMeans(s, caps, lifetime);
    SomeCapRefused(s, p, caps, lifetime);
    hide CoversSpending;
    LeftAtFirst(s, p, caps, lifetime, k);
    MergedIsSame(s, p, caps, lifetime, k);
    if |caps| <= MAX_CAPS_PER_GRANT && k == 1 {
      FirstCovered(s, caps, lifetime);
    }
  }

  lemma FirstCovered(s: Session, caps: seq<MintCap>, lifetime: seq<U64>)
    requires 1 <= |caps| <= |lifetime| && CoversSpending(s, caps[..1], lifetime)
    ensures lifetime[0] >= SpentOf(s, caps[0].mint)
  {
    hide SpentOf;
    assert caps[..1][0] == caps[0];
  }

  // ---------------------------------------------------------------- what a grant establishes

  /** What holds of every session of the account at `key` with policy `p`. */
  ghost predicate SessionOk(s: Session, key: Pubkey, p: Policy) {
    && s.version == 1 && s.account == key && s.pubkey != DEFAULT_KEY && s.kind == SESSION_KIND_ED25519
    && s.programAllowlistId == 0 && SubMask(s.opsMask, OPS_MASK_KNOWN) && SubMask(s.opsMask, p.sessionOpsCeiling)
    && TableOk(s, p)
  }

  /** A blank account, or a session of the account at `key`. */
  ghost predicate PriorOk(s: Session, key: Pubkey, p: Policy) { s == BLANK_SESSION || SessionOk(s, key, p) }

  lemma {:induction false} CapShapesMean(caps: seq<MintCap>)
    ensures CapShapes(caps).Pass? <==>
              && RealMints(caps) && DistinctMints(caps)
              && forall k :: 0 <= k < |caps| ==> caps[k].perDay == caps[k].per30d == 0
    decreases |caps|
  {
    if caps != [] {
      var n := |caps| - 1;
      CapShapesMean(caps[..n]);
      assert caps == caps[..n] + [caps[n]];
    }
  }

  lemma EmptyTableOk(s: Session, p: Policy)
    requires s.caps == EmptySlots(8) && s.lifetimeCap == EmptyAmounts(8) && s.lifetimeSpent == EmptyAmounts(8)
    ensures TableOk(s, p) && forall mint :: SpentOf(s, mint) == 0
  {
    hide EmptySlots, EmptyAmounts;
    assert Packed(s, 0);
    assert TableOfSize(s, p, 0);
    forall mint ensures SpentOf(s, mint) == 0 {
      assert forall k :: 0 <= k < 8 ==> s.caps[k].mint == DEFAULT_KEY;
    }
  }

  /** The session a grant merges into: the prior one, or an empty one. */
  lemma OpenedOk(s: Session, key: Pubkey, p: Policy, b: GrantBody, bump: Byte, generation: U64)
    requires PriorOk(s, key, p) && Opened(s, key, b, bump).Ok?
    ensures var t := Blessed(Opened(s, key, b, bump).value, b, generation);
            && TableOk(t, p) && t.version == 1 && t.account == key && t.pubkey == b.sessionPubkey
            && t.kind == b.kind && t.opsMask == b.opsMask && t.programAllowlistId == b.programAllowlistId
            && t.expiryTs == b.expiryTs && t.generationAtGrant == generation
            && (s.version == 0 ==> t.caps == EmptySlots(8) && t.lifetimeSpent == EmptyAmounts(8))
            && (s.version != 0 ==> t.caps == s.caps && t.lifetimeCap == s.lifetimeCap
                                   && t.lifetimeSpent == s.lifetimeSpent && s.pubkey == t.pubkey && s.bump == t.bump)
  {
    hide EmptySlots, EmptyAmounts, TableOfSize;
    var o := Opened(s, key, b, bump).value;
    var t := Blessed(o, b, generation);
    if s.version == 0 {
      EmptyTableOk(t, p);
    } else {
      var n: nat :| TableOfSize(s, p, n);
      SameTable(s, t, p, n);
    }
  }

  lemma SameTable(s: Session, t: Session, p: Policy, n: nat)
    requires TableOfSize(s, p, n)
    requires t.caps == s.caps && t.lifetimeCap == s.lifetimeCap && t.lifetimeSpent == s.lifetimeSpent
    ensures TableOk(t, p)
  {
    hide UnderCeiling;
    forall k: nat | k < n ensures SlotGranted(t, p, k) { assert SlotGranted(s, p, k); }
    assert TableOfSize(t, p, n);
  }

  /** What a grant must be: both validations together pass exactly on these. */
  ghost predicate GrantAdmissible(p: Policy, b: GrantBody, now: I64) {
    && |b.caps| == |b.lifetimeCap| <= MAX_CAPS_PER_GRANT && GrantableCaps(b.caps, p)
    && b.kind == SESSION_KIND_ED25519 && b.sessionPubkey != DEFAULT_KEY && b.programAllowlistId == 0
    && now < b.expiryTs <= now + p.maxSessionLifeSecs && -I64_LIMIT <= now + p.maxSessionLifeSecs < I64_LIMIT
    && SubMask(b.opsMask, OPS_MASK_KNOWN) && SubMask(b.opsMask, p.sessionOpsCeiling)
  }

  lemma ShapeAndPolicyMean(p: Policy, b: GrantBody, now: I64)
    ensures ValidateShape(b).Pass? && ValidateAgainstPolicy(p, b, now).Pass? <==> GrantAdmissible(p, b, now)
  {
    hide SubMask, UnderCeiling, Grantable, DistinctMints;
    CapShapesMean(b.caps);
    forall k | 0 <= k < |b.caps|
      ensures Grantable(b.caps[k], p) <==>
                && b.caps[k].mint != DEFAULT_KEY && b.caps[k].perDay == b.caps[k].per30d == 0
                && UnderCeiling(b.caps[k], p.sessionCeiling)
    {
      GrantableFits(b.caps[k], p);
    }
  }

  /** The session as it stands before the merge. */
  function BeforeMerge(s: Session, key: Pubkey, b: GrantBody, bump: Byte, generation: U64): Session {
    match Opened(s, key, b, bump)
    case Ok(t) => Blessed(t, b, generation)
    case Err(_) => s
  }

  ghost predicate GrantedBy(g: GrantResult, a: Account, key: Pubkey, s: Session, bump: Byte, b: GrantBody, now: I64) {
    && a.frozenKind == 0 && g.account == a.(rootNonce := g.account.rootNonce) && g.account.rootNonce == a.rootNonce + 1
    && SessionOk(g.session, key, a.policy)
    && g.session.pubkey == b.sessionPubkey && g.session.generationAtGrant == a.generation
    && now < g.session.expiryTs == b.expiryTs <= now + a.policy.maxSessionLifeSecs
    && |b.caps| <= |b.lifetimeCap| && GrantableCaps(b.caps, a.policy)
    && Overlaid(BeforeMerge(s, key, b, bump, a.generation), g.session, b.caps, b.lifetimeCap)
  }

  /**
    An accepted grant consumes one nonce and changes nothing else of the account. The session it leaves
    is in order, expires within the policy's bound, holds exactly the prior limits overlaid with the
    signed ones, and has forgotten no spending.
  */
  lemma GrantMeans(env: Env, a: Account, key: Pubkey, s: Session, bump: Byte, cx: Context, root: RootArgs, b: GrantBody)
    requires AccountOk(a) && PriorOk(s, key, a.policy) && Grant(env, a, key, s, bump, cx, root, b).Ok?
    ensures VerifyRoot(env, a, cx, root, key, ActionHash(env, GrantSession(b))).Ok?
    ensures GrantedBy(Grant(env, a, key, s, bump, cx, root, b).value, a, key, s, bump, b, cx.now)
  {
    hide VerifyRoot, ActionHash, TableOk, ValidateShape, ValidateAgainstPolicy, PriorHash, Overlaid, GrantableCaps,
      MergeCaps, PolicyOk, SubMask, Honest.CeremonyReady, Opened;
    VerifiedNonce(env, a, cx, root, key, GrantSession(b));
    ShapeAndPolicyMean(a.policy, b, cx.now);
    OpenedOk(s, key, a.policy, b, bump, a.generation);
    MergeIsByMint(BeforeMerge(s, key, b, bump, a.generation), a.policy, b.caps, b.lifetimeCap);
    OverlaidIdentity(BeforeMerge(s, key, b, bump, a.generation), Grant(env, a, key, s, bump, cx, root, b).value.session,
                     b.caps, b.lifetimeCap);
  }

  lemma OverlaidIdentity(s: Session, r: Session, caps: seq<MintCap>, lifetime: seq<U64>)
    requires |caps| <= |lifetime| && Overlaid(s, r, caps, lifetime)
    ensures SameIdentity(s, r)
  {
    hide OverlaidAt;
  }

  /** Every cap of a session is bounded by the ceiling, and that by the account's own caps. */
  lemma SessionChain(s: Session, key: Pubkey, p: Policy, mint: Pubkey)
    requires PolicyOk(p) && SessionOk(s, key, p) && FindCap(s.caps, mint).Some?
    ensures Lookup(p.sessionCeiling, mint).Some? && Lookup(p.caps, mint).Some?
    ensures var c := Lookup(p.caps, mint).value;
            Lookup(s.caps, mint).value.perTx <= Lookup(p.sessionCeiling, mint).value.perTx <= c.perTx <= c.perDay <= c.per30d
    ensures SpentOf(s, mint) <= LifetimeOf(s, mint)
  {
    hide PolicyOk, SubMask;
    var n: nat :| TableOfSize(s, p, n);
    FindInPacked(s, n, mint);
    hide FindCap;
    assert SlotGranted(s, p, FindCap(s.caps, mint).value);
    CeilingChain(p, mint);
  }

  /**
    A grant signed over the hash of some bytes is accepted only for an existing session whose account, key,
    caps and lifetime caps are what those bytes say.
  */
  lemma GrantBindsPrior(env: Env, a: Account, key: Pubkey, s: Session, bump: Byte, cx: Context, root: RootArgs, b: GrantBody,
                        signed: Bytes)
    requires b.priorAuthorityHash == env.keccak(signed) != Zeros(32)
    requires NoCollision(env.keccak, AuthorityPreimage(Authority(s.account, s.pubkey, s.caps, s.lifetimeCap)), signed)
    requires Grant(env, a, key, s, bump, cx, root, b).Ok?
    ensures s.version != 0 && ReadAuthority(signed) == Some(Authority(s.account, s.pubkey, s.caps, s.lifetimeCap))
  {
    hide VerifyRoot, ActionHash, ValidateShape, ValidateAgainstPolicy, MergeCaps, AuthorityPreimage, ReadAuthority, Zeros;
    AuthorityReads(AuthorityOf(s));
  }

  /** A session that exists is never granted over with a document signed for a new one. */
  lemma FreshGrantNeedsNoSession(env: Env, a: Account, key: Pubkey, s: Session, bump: Byte, cx: Context, root: RootArgs,
                                 b: GrantBody)
    requires b.priorAuthorityHash == Zeros(32) && env.keccak(AuthorityPreimage(AuthorityOf(s))) != Zeros(32)
    requires Grant(env, a, key, s, bump, cx, root, b).Ok?
    ensures s.version == 0
  {
    hide VerifyRoot, ActionHash, ValidateShape, ValidateAgainstPolicy, MergeCaps, AuthorityPreimage, Zeros;
  }

  // ---------------------------------------------------------------- what a refusal is called

  /** The cap is no real mint, or repeats one. */
  predicate BadMint(caps: seq<MintCap>, k: nat)
    requires k < |caps|
  {
    caps[k].mint == DEFAULT_KEY || exists j :: 0 <= j < k && caps[j].mint == caps[k].mint
  }

  predicate Faulty(caps: seq<MintCap>, k: nat)
    requires k < |caps|
  {
    BadMint(caps, k) || caps[k].perDay != 0 || caps[k].per30d != 0
  }

  /** The `k`-th cap is the first faulty one, and this is what its fault is called. */
  ghost predicate FirstFault(caps: seq<MintCap>, k: nat, e: Error) {
    && k < |caps| && Faulty(caps, k) && (forall j: nat :: j < k ==> !Faulty(caps, j))
    && e == if BadMint(caps, k) then InvalidAccountData else SessionDayCapsUnsupported
  }

  lemma {:induction false} CapFailure(caps: seq<MintCap>)
    ensures CapShapes(caps).Fail? ==> exists k :: FirstFault(caps, k, CapShapes(caps).error)
    ensures CapShapes(caps).Pass? ==> forall k: nat :: k < |caps| ==> !Faulty(caps, k)
    decreases |caps|
  {
    hide Faulty, BadMint, Position;
    if caps != [] {
      var n := |caps| - 1;
      CapFailure(caps[..n]);
      if CapShapes(caps[..n]).Pass? { LastFault(caps); }
      forall k: nat | k < n ensures Faulty(caps[..n], k) <==> Faulty(caps, k) { SameFault(caps, n, k); }
      if CapShapes(caps[..n]).Fail? {
        var k :| FirstFault(caps[..n], k, CapShapes(caps).error);
        CarryFault(caps, n, k, CapShapes(caps).error);
      } else if CapShapes(caps).Fail? {
        assert FirstFault(caps, n, CapShapes(caps).error);
      }
    }
  }

  lemma CarryFault(caps: seq<MintCap>, n: nat, k: nat, e: Error)
    requires n <= |caps| && FirstFault(caps[..n], k, e)
    ensures FirstFault(caps, k, e)
  {
    hide Faulty, BadMint;
    forall j: nat | j <= k
      ensures (BadMint(caps[..n], j) <==> BadMint(caps, j)) && (Faulty(caps[..n], j) <==> Faulty(caps, j))
    {
      SameFault(caps, n, j);
    }
  }

  lemma SameFault(caps: seq<MintCap>, n: nat, k: nat)
    requires k < n <= |caps|
    ensures BadMint(caps[..n], k) <==> BadMint(caps, k)
    ensures Faulty(caps[..n], k) <==> Faulty(caps, k)
  {
    assert forall j :: 0 <= j < n ==> caps[..n][j] == caps[j];
  }

  lemma LastFault(caps: seq<MintCap>)
    requires caps != [] && CapShapes(caps[..|caps| - 1]).Pass?
    ensures var n := |caps| - 1;
            CapShapes(caps) == if BadMint(caps, n) then Fail(InvalidAccountData)
                               else if Faulty(caps, n) then Fail(SessionDayCapsUnsupported) else Pass
    ensures BadMint(caps, |caps| - 1) ==> Faulty(caps, |caps| - 1)
  {
    hide Position;
    SameMint(caps, |caps| - 1);
  }

  lemma SameMint(caps: seq<MintCap>, n: nat)
    requires n < |caps|
    ensures Position(caps[..n], caps[n].mint).Some? <==> exists j :: 0 <= j < n && caps[j].mint == caps[n].mint
  {
    assert forall j :: 0 <= j < n ==> caps[..n][j] == caps[j];
    var at := Position(caps[..n], caps[n].mint);
    if at.Some? { assert caps[at.value].mint == caps[n].mint; }
  }

  /** What is wrong with a grant's arguments or its prior state, if anything: the checks in their order. */
  ghost predicate GrantFault(env: Env, p: Policy, key: Pubkey, s: Session, b: GrantBody, now: I64, e: Error) {
    if |b.caps| > MAX_CAPS_PER_GRANT || |b.lifetimeCap| != |b.caps| then e == BadInstructionLayout
    else if b.kind != SESSION_KIND_ED25519 || b.sessionPubkey == DEFAULT_KEY then e == InvalidAccountData
    else if exists k: nat :: k < |b.caps| && Faulty(b.caps, k) then exists k :: FirstFault(b.caps, k, e)
    else if b.expiryTs <= now then e == Expired
    else if !(-I64_LIMIT <= now + p.maxSessionLifeSecs < I64_LIMIT) then e == Overflow
    else if b.expiryTs > now + p.maxSessionLifeSecs then e == InvalidPolicy
    else if !SubMask(b.opsMask, OPS_MASK_KNOWN) || !SubMask(b.opsMask, p.sessionOpsCeiling) then e == OpNotAllowed
    else if b.programAllowlistId != 0 then e == ProgramAllowlistUnsupported
    else if !GrantableCaps(b.caps, p) then e == CapExceeded
    else if b.priorAuthorityHash
            != (if s.version == 0 then Zeros(32)
                else env.keccak(AuthorityPreimage(Authority(s.account, s.pubkey, s.caps, s.lifetimeCap))))
    then e == SessionPriorStateMismatch
    else if s.version != 0 && (s.account != key || s.pubkey != b.sessionPubkey) then e == Unauthorized
    else e == CapExceeded && !CoversSpending(s, b.caps, b.lifetimeCap)
  }

  /** A refused grant names the first of its conditions that fails; validation comes after the ceremony. */
  lemma RefusalIsNamed(env: Env, a: Account, key: Pubkey, s: Session, bump: Byte, cx: Context, root: RootArgs, b: GrantBody)
    requires AccountOk(a) && PriorOk(s, key, a.policy) && Grant(env, a, key, s, bump, cx, root, b).Err?
    ensures var e := Grant(env, a, key, s, bump, cx, root, b).error;
            var r := VerifyRoot(env, a, cx, root, key, ActionHash(env, GrantSession(b)));
            if CheckAccountPda(env, key, a).Fail? then e == Unauthorized
            else if a.frozenKind != 0 then e == Frozen
            else if r.Err? then e == r.error
            else GrantFault(env, a.policy, key, s, b, cx.now, e)
  {
    hide VerifyRoot, ActionHash, AfterCeremony, PolicyOk, Honest.CeremonyReady, PriorOk, GrantFault;
    if VerifyRoot(env, a, cx, root, key, ActionHash(env, GrantSession(b))).Ok? {
      var a' := VerifyRoot(env, a, cx, root, key, ActionHash(env, GrantSession(b))).value;
      VerifiedNonce(env, a, cx, root, key, GrantSession(b));
      if AfterCeremony(env, a', key, s, bump, cx.now, b).Err? { AfterFault(env, a', key, s, bump, cx.now, b); }
    }
  }

  lemma AfterFault(env: Env, a: Account, key: Pubkey, s: Session, bump: Byte, now: I64, b: GrantBody)
    requires PolicyOk(a.policy) && PriorOk(s, key, a.policy) && AfterCeremony(env, a, key, s, bump, now, b).Err?
    ensures GrantFault(env, a.policy, key, s, b, now, AfterCeremony(env, a, key, s, bump, now, b).error)
  {
    hide PolicyOk, PriorOk, CapShapes, SubMask, UnderCeiling, GrantableCaps, AuthorityPreimage, Upsert, CoversSpending, FirstFault,
      Faulty, Zeros;
    CapFailure(b.caps);
    ShapeAndPolicyMean(a.policy, b, now);
    NoFirstFault(b.caps);
    if ValidateShape(b).Pass? && ValidateAgainstPolicy(a.policy, b, now).Pass? && Upsert(s, key, b, bump, a.generation).Err? {
      UpsertFault(s, key, a.policy, b, bump, a.generation);
    }
  }

  lemma NoFirstFault(caps: seq<MintCap>)
    ensures (exists k, e :: FirstFault(caps, k, e)) ==> exists k: nat :: k < |caps| && Faulty(caps, k)
  {
    hide Faulty, BadMint;
  }

  lemma UpsertFault(s: Session, key: Pubkey, p: Policy, b: GrantBody, bump: Byte, generation: U64)
    requires PolicyOk(p) && PriorOk(s, key, p) && Upsert(s, key, b, bump, generation).Err?
    requires GrantableCaps(b.caps, p) && |b.caps| <= |b.lifetimeCap|
    ensures var e := Upsert(s, key, b, bump, generation).error;
            if s.version != 0 && (s.account != key || s.pubkey != b.sessionPubkey) then e == Unauthorized
            else e == CapExceeded && !CoversSpending(s, b.caps, b.lifetimeCap)
  {
    hide PolicyOk, TableOk, GrantableCaps, MergeCaps, Overlaid, EmptySlots, EmptyAmounts, SubMask, SpentOf;
    if Opened(s, key, b, bump).Ok? {
      OpenedOk(s, key, p, b, bump, generation);
      var t := BeforeMerge(s, key, b, bump, generation);
      MergeIsByMint(t, p, b.caps, b.lifetimeCap);
      SameSpending(s, t, b.caps, b.lifetimeCap);
    }
  }

  lemma SameSpending(s: Session, t: Session, caps: seq<MintCap>, lifetime: seq<U64>)
    requires t.caps == s.caps && t.lifetimeSpent == s.lifetimeSpent && |caps| <= |lifetime|
    ensures CoversSpending(s, caps, lifetime) <==> CoversSpending(t, caps, lifetime)
  {
    hide FindCap;
    forall k | 0 <= k < |caps| ensures SpentOf(s, caps[k].mint) == SpentOf(t, caps[k].mint) {}
  }

  // ---------------------------------------------------------------- the signed document fixes the result

  lemma {:induction false} MergeIsSigned(s: Session, t: Session, caps: seq<MintCap>, lifetime: seq<U64>)
    requires s.caps == t.caps && s.lifetimeCap == t.lifetimeCap
    requires MergeCaps(s, caps, lifetime).Ok? && MergeCaps(t, caps, lifetime).Ok?
    ensures var r, u := MergeCaps(s, caps, lifetime).value, MergeCaps(t, caps, lifetime).value;
            && r.caps == u.caps && r.lifetimeCap == u.lifetimeCap
            && SameIdentity(s, r) && SameIdentity(t, u)
    decreases |caps|
  {
    hide SlotFor;
    if caps != [] { MergeIsSigned(s, t, caps[..|caps| - 1], lifetime); }
  }

  /** Equal but for usage and bookkeeping. */
  ghost predicate SameAuthority(r: Session, u: Session) {
    u == r.(lifetimeSpent := u.lifetimeSpent, bump := u.bump, version := u.version, generationAtGrant := u.generationAtGrant)
  }

  /**
    Two accepted grants with the same signed body, made into sessions that existed before, leave the same
    authority, whatever the sessions' spending and replaced fields were: the body binds the prior state.
  */
  lemma GrantIsSigned(env: Env, key: Pubkey, b: GrantBody, a: Account, s: Session, bump: Byte, cx: Context, root: RootArgs,
                      a': Account, s': Session, bump': Byte, cx': Context, root': RootArgs)
    requires s.version != 0 && s'.version != 0
    requires NoCollision(env.keccak, AuthorityPreimage(AuthorityOf(s)), AuthorityPreimage(AuthorityOf(s')))
    requires Grant(env, a, key, s, bump, cx, root, b).Ok? && Grant(env, a', key, s', bump', cx', root', b).Ok?
    ensures SameAuthority(Grant(env, a, key, s, bump, cx, root, b).value.session,
                          Grant(env, a', key, s', bump', cx', root', b).value.session)
  {
    hide VerifyRoot, ActionHash, ValidateShape, ValidateAgainstPolicy, MergeCaps, AuthorityPreimage;
    AuthorityInjective(AuthorityOf(s), AuthorityOf(s'));
    var g, g' := VerifyRoot(env, a, cx, root, key, ActionHash(env, GrantSession(b))).value.generation,
                 VerifyRoot(env, a', cx', root', key, ActionHash(env, GrantSession(b))).value.generation;
    MergeIsSigned(Blessed(s, b, g), Blessed(s', b, g'), b.caps, b.lifetimeCap);
  }
}
