/**
  The instruction handlers, working in place on the accounts they are given. Each computes exactly the
  outcome of the function that specifies it; after an error the accounts may hold partial writes, which
  the runtime discards.
*/
module Handlers {
  import opened Base
  import Buckets
  import opened Wire
  import opened State
  import opened PolicyRules
  import opened RootVerify
  import opened Lifecycle
  import opened Sessions
  import opened Transfers
  import Accounts = SmartAccount
  import SessionAccounts = SessionKey

  type SmartAccount = Accounts.SmartAccount
  type SessionKey = SessionAccounts.SessionKey

  /** `PolicyArgs::expand`, with its loops. */
  method ExpandPolicy(p: PolicyArgs) returns (r: Result<Policy>)
    ensures r == Expand(p)
  {
    hide PlaceCaps, KeyByMint;
    if |p.caps| > MAX_MINTS_AT_CREATE || |p.sessionCeiling| > MAX_MINTS_AT_CREATE || |p.largeThreshold| > MAX_MINTS_AT_CREATE {
      return Err(InvalidAccountData);
    }
    var caps :- PlaceCapsLoop(p.caps);
    var ceiling :- KeyByMintLoop(p.sessionCeiling, caps, |p.caps|);
    var threshold :- KeyByMintLoop(p.largeThreshold, caps, |p.caps|);
    return Ok(Policy(p.version, caps, ceiling, threshold, p.timelockSecs, p.recoveryDelaySecs, p.maxSessionLifeSecs,
                     p.sessionOpsCeiling));
  }

  method HandleCreate(env: Env, account: SmartAccount, args: CreateArgs, bump: Byte) returns (r: Result<()>)
    requires account.Valid() && account.Value() == Accounts.BLANK_ACCOUNT
    modifies account
    ensures match CreateAccount(env, args, bump)
            case Err(e) => r == Err(e)
            case Ok(a) => r.Ok? && account.Value() == a && SetupAs(env, a, args) && Untouched(a)
  {
    hide Expand, ValidatePolicy, EmptyBuckets, EmptySlots, Less, Accounts.Values, Zeros, SetupAs, Untouched, NewAccount;
    match ValidateRoot(args.root) {
      case Fail(e) => return Err(e);
      case Pass =>
    }
    match ValidateOrigin(args.origin) {
      case Fail(e) => return Err(e);
      case Pass =>
    }
    if args.clusterTag == Zeros(32) { return Err(ZeroClusterTag); }
    var computed := env.sha256(args.origin);
    if computed != args.rpIdHash { return Err(InvalidRootAssertion); }
    ghost var blank := account.Value();
    var policy :- ExpandPolicy(args.policy);
    assert account.Value() == blank;
    match ValidatePolicy(policy) {
      case Fail(e) => return Err(e);
      case Pass =>
    }
    Initialise(account, args, computed, policy, bump);
    CreatedIsReady(env, args, bump);
    return Ok(());
  }

  /** Writes the fields of a new account over the zero-filled one. */
  method Initialise(account: SmartAccount, args: CreateArgs, rpIdHash: Hash, policy: Policy, bump: Byte)
    requires account.Valid() && account.Value() == Accounts.BLANK_ACCOUNT && |args.origin| <= 64
    modifies account
    ensures account.Value() == NewAccount(args, rpIdHash, policy, bump)
  {
    hide Untagged;
    InitialiseFields(account, args, rpIdHash, policy, bump);
    account.SetRoot(args.root);
    account.SetFrozen(NotFrozen);
  }

  method InitialiseFields(account: SmartAccount, args: CreateArgs, rpIdHash: Hash, policy: Policy, bump: Byte)
    requires account.Valid() && account.Value() == Accounts.BLANK_ACCOUNT && |args.origin| <= 64
    modifies account
    ensures account.Value() == Untagged(args, rpIdHash, policy, bump)
  {
    hide EmptyBuckets, EmptySlots, Accounts.Values, Zeros, StoredOrigin, Untagged;
    StoredTail(args.origin);
    FieldsOf(args, rpIdHash, policy, bump);
    WriteIdentity(account, args.ownerSeed, rpIdHash, args.origin + account.origin[|args.origin|..], |args.origin|, bump);
    WriteState(account, args.clusterTag, policy);
  }

  method WriteIdentity(account: SmartAccount, ownerSeed: Hash, rpIdHash: Hash, origin: Origin, originLen: Byte, bump: Byte)
    requires account.Valid()
    modifies account
    ensures account.Value() == old(account.Value()).(version := 1, bump := bump, ownerSeed := ownerSeed,
                                                     rpIdHash := rpIdHash, origin := origin, originLen := originLen)
  {
    hide Accounts.Values;
    account.version, account.bump, account.ownerSeed := 1, bump, ownerSeed;
    account.rpIdHash, account.origin, account.originLen := rpIdHash, origin, originLen;
  }

  method WriteState(account: SmartAccount, clusterTag: Hash, policy: Policy)
    requires account.Valid()
    modifies account
    ensures account.Value() == old(account.Value()).(clusterTag := clusterTag, generation := 0, rootNonce := 0,
                                                     frozenAt := 0, policy := policy.(version := 1))
  {
    hide Accounts.Values;
    account.clusterTag, account.generation, account.rootNonce := clusterTag, 0, 0;
    account.frozenAt, account.policy := 0, policy.(version := 1);
  }

  lemma FieldsOf(args: CreateArgs, rpIdHash: Hash, policy: Policy, bump: Byte)
    requires |args.origin| <= 64
    ensures Accounts.BLANK_ACCOUNT.(version := 1, bump := bump, ownerSeed := args.ownerSeed, rpIdHash := rpIdHash,
              origin := StoredOrigin(args.origin), originLen := |args.origin|)
            .(clusterTag := args.clusterTag, generation := 0, rootNonce := 0, frozenAt := 0, policy := policy.(version := 1))
         == Untagged(args, rpIdHash, policy, bump)
  {
    hide Zeros, EmptyBuckets, EmptySlots, StoredOrigin;
  }

  lemma StoredTail(origin: Bytes)
    requires |origin| <= 64
    ensures origin + Zeros(64)[|origin|..] == StoredOrigin(origin)
  {
    hide Zeros;
  }

  /** The account sits at the address of the seeds it stores. */
  method CheckAddress(env: Env, account: SmartAccount, key: Pubkey) returns (r: Outcome)
    requires account.Valid()
    ensures r == CheckAccountPda(env, key, account.Value())
  {
    var expected := env.createAddress([ACCOUNT_SEED, account.ownerSeed, [account.bump]]);
    return Require(expected == Some(key), Unauthorized);
  }

  method HandleRotate(env: Env, account: SmartAccount, key: Pubkey, cx: Context, root: RootArgs) returns (r: Result<()>)
    requires account.Valid()
    modifies account
    ensures match Rotate(env, old(account.Value()), key, cx, root)
            case Err(e) => r == Err(e)
            case Ok(a) => r.Ok? && account.Value() == a
  {
    hide VerifyRoot, Accounts.Values;
    ghost var a := account.Value();
    var home := CheckAddress(env, account, key);
    assert account.Value() == a;
    if home.Fail? { return Err(home.error); }
    r := account.VerifyRootAssertion(env, cx, root, key, env.keccak([0] + []));
    assert [0] + [] == ActionPreimage(RotateNonce);
  }

  method HandleFreeze(env: Env, account: SmartAccount, key: Pubkey, cx: Context, root: RootArgs) returns (r: Result<()>)
    requires account.Valid()
    modifies account
    ensures match Freeze(env, old(account.Value()), key, cx, root)
            case Err(e) => r == Err(e)
            case Ok(a) => r.Ok? && account.Value() == a
  {
    hide VerifyRoot, Accounts.Values, ActionHash, SetFrozen, CheckAccountPda;
    ghost var a := account.Value();
    var home := CheckAddress(env, account, key);
    assert account.Value() == a;
    if home.Fail? { return Err(home.error); }
    var _ :- account.VerifyRootAssertion(env, cx, root, key, ActionHash(env, FreezeAccount));
    ghost var b := account.Value();
    var frozen :- account.Frozen();
    assert account.Value() == b;
    if !frozen.NotFrozen? { return Err(AlreadyFrozen); }
    account.SetFrozen(FrozenByRoot);
    account.frozenAt := cx.now;
    return Ok(());
  }

  method HandleUnfreeze(env: Env, account: SmartAccount, key: Pubkey, cx: Context, root: RootArgs) returns (r: Result<()>)
    requires account.Valid()
    modifies account
    ensures match Unfreeze(env, old(account.Value()), key, cx, root)
            case Err(e) => r == Err(e)
            case Ok(a) => r.Ok? && account.Value() == a
  {
    hide VerifyRoot, Accounts.Values, ActionHash, SetFrozen, CheckAccountPda;
    ghost var a := account.Value();
    var home := CheckAddress(env, account, key);
    assert account.Value() == a;
    if home.Fail? { return Err(home.error); }
    var _ :- account.VerifyRootAssertion(env, cx, root, key, ActionHash(env, UnfreezeAccount));
    ghost var b := account.Value();
    var frozen :- account.Frozen();
    assert account.Value() == b;
    match frozen {
      case FrozenByRoot =>
        var unlockAt := account.frozenAt + account.policy.timelockSecs;
        if unlockAt >= I64_LIMIT || unlockAt < -I64_LIMIT { return Err(Overflow); }
        if cx.now < unlockAt { return Err(TimelockNotElapsed); }
      case FrozenByGuardian(_, _) => return Err(Error.Frozen);
      case NotFrozen => return Err(InvalidAccountData);
    }
    account.SetFrozen(NotFrozen);
    account.frozenAt := 0;
    return Ok(());
  }

  // ---------------------------------------------------------------- sessions

  /** The session sits at the address of the fields it stores. */
  method CheckSessionAddress(env: Env, session: SessionKey, sessionKey: Pubkey, key: Pubkey) returns (r: Outcome)
    requires session.Valid()
    ensures r == CheckSessionPda(env, SessionRef(sessionKey, session.Value()), key)
  {
    if session.account != key { return Fail(Unauthorized); }
    var expected := env.createAddress([SESSION_SEED, key, session.pubkey, [session.bump]]);
    return Require(expected == Some(sessionKey), Unauthorized);
  }

  method HandleRevokeRoot(env: Env, account: SmartAccount, key: Pubkey, session: SessionKey, sessionKey: Pubkey, payer: Pubkey,
                          cx: Context, root: RootArgs, b: RevokeBody) returns (r: Result<()>)
    requires account.Valid() && session.Valid()
    modifies account
    ensures match RevokeByRoot(env, old(account.Value()), key, SessionRef(sessionKey, old(session.Value())), payer, cx, root, b)
            case Err(e) => r == Err(e)
            case Ok(a) => r.Ok? && account.Value() == a
  {
    hide VerifyRoot, Accounts.Values, ActionHash, CheckAccountPda, CheckSessionPda;
    ghost var a := account.Value();
    if session.pubkey != b.sessionPubkey { return Err(Unauthorized); }
    if payer != b.refundTo { return Err(Unauthorized); }
    var here := CheckSessionAddress(env, session, sessionKey, key);
    if here.Fail? { return Err(here.error); }
    var home := CheckAddress(env, account, key);
    assert account.Value() == a;
    if home.Fail? { return Err(home.error); }
    r := account.VerifyRootAssertion(env, cx, root, key, ActionHash(env, RevokeSession(b)));
  }

  method HandleRevokeSelf(env: Env, account: SmartAccount, key: Pubkey, session: SessionKey, sessionKey: Pubkey, signer: Pubkey)
    returns (r: Outcome)
    requires account.Valid() && session.Valid()
    ensures r == RevokeBySelf(env, account.Value(), key, SessionRef(sessionKey, session.Value()), signer)
  {
    hide Accounts.Values, CheckAccountPda, CheckSessionPda;
    ghost var a, s := account.Value(), session.Value();
    if session.pubkey != signer { return Fail(Unauthorized); }
    var home := CheckAddress(env, account, key);
    assert account.Value() == a && session.Value() == s;
    if home.Fail? { return home; }
    r := CheckSessionAddress(env, session, sessionKey, key);
    assert account.Value() == a && session.Value() == s;
  }

  /** The digest the grant must have been signed over. */
  method PriorDigest(env: Env, session: SessionKey) returns (h: Hash)
    requires session.Valid()
    ensures h == PriorHash(env, session.Value())
  {
    if session.version == 0 { return Zeros(32); }
    h := session.AuthorityHash(env);
  }

  method HandleGrant(env: Env, account: SmartAccount, key: Pubkey, session: SessionKey, bump: Byte, cx: Context,
                     root: RootArgs, b: GrantBody) returns (r: Result<()>)
    requires account.Valid() && session.Valid()
    modifies account, session, session.caps, session.lifetimeCap, session.lifetimeSpent
    ensures match Grant(env, old(account.Value()), key, old(session.Value()), bump, cx, root, b)
            case Err(e) => r == Err(e)
            case Ok(g) => r.Ok? && account.Value() == g.account && session.Value() == g.session
  {
    hide VerifyRoot, Accounts.Values, ActionHash, CheckAccountPda, ValidateShape, ValidateAgainstPolicy, PriorHash,
      Opened, Blessed, MergeCaps;
    ghost var a, s := account.Value(), session.Value();
    var home := CheckAddress(env, account, key);
    assert account.Value() == a && session.Value() == s;
    if home.Fail? { return Err(home.error); }
    var frozen :- account.Frozen();
    assert account.Value() == a && session.Value() == s;
    if !frozen.NotFrozen? { return Err(Error.Frozen); }
    var _ :- account.VerifyRootAssertion(env, cx, root, key, ActionHash(env, GrantSession(b)));
    ghost var a' := account.Value();
    assert session.Value() == s;
    r := GrantChecked(env, account, key, session, bump, cx.now, b);
    assert account.Value() == a';
  }

  /** What follows the ceremony: validate, match the signed prior state, open and merge. */
  method GrantChecked(env: Env, account: SmartAccount, key: Pubkey, session: SessionKey, bump: Byte, now: I64, b: GrantBody)
    returns (r: Result<()>)
    requires account.Valid() && session.Valid()
    modifies session, session.caps, session.lifetimeCap, session.lifetimeSpent
    ensures match AfterCeremony(env, account.Value(), key, old(session.Value()), bump, now, b)
            case Err(e) => r == Err(e)
            case Ok(s) => r.Ok? && session.Value() == s
  {
    hide Accounts.Values, ValidateShape, ValidateAgainstPolicy, PriorHash, Opened, MergeCaps;
    ghost var a, s := account.Value(), session.Value();
    match ValidateShape(b) {
      case Fail(e) => return Err(e);
      case Pass =>
    }
    match ValidateAgainstPolicy(account.policy, b, now) {
      case Fail(e) => return Err(e);
      case Pass =>
    }
    var generation := account.generation;
    var prior := PriorDigest(env, session);
    assert account.Value() == a && session.Value() == s;
    if prior != b.priorAuthorityHash { return Err(SessionPriorStateMismatch); }
    var _ :- session.Open(key, b, bump);
    session.Bless(b, generation);
    r := session.MergeAll(b);
    assert account.Value() == a;
  }

  // ---------------------------------------------------------------- transfers

  /** The lamport balance of an account, as the runtime lends it to the program. */
  class Lamports {
    var balance: U64

    constructor (b: U64)
      ensures balance == b
    {
      balance := b;
    }
  }

  method CheckSession(env: Env, session: SessionKey, sessionKey: Pubkey, signer: Pubkey, key: Pubkey, generation: U64, now: I64)
    returns (r: Outcome)
    requires session.Valid()
    ensures r == AuthorizeSession(env, SessionRef(sessionKey, session.Value()), signer, key, generation, now)
  {
    hide CheckSessionPda;
    ghost var s := session.Value();
    var here := CheckSessionAddress(env, session, sessionKey, key);
    assert session.Value() == s;
    if here.Fail? { return here; }
    if signer != session.pubkey { return Fail(Unauthorized); }
    if session.generationAtGrant != generation { return Fail(Unauthorized); }
    if now >= session.expiryTs { return Fail(SessionExpired); }
    return Require(session.opsMask % 2 == 1, OpNotAllowed);
  }

  /** The session's own limits: the slot and its new spending, to be written once the account has been charged. */
  method PendingLifetime(session: SessionKey, mint: Pubkey, amount: U64) returns (r: Result<Pending>)
    requires session.Valid()
    ensures match SpendLifetime(session.Value(), mint, amount)
            case Err(e) => r == Err(e)
            case Ok(s) =>
              && r.Ok? && r.value.slot < 8
              && s == session.Value().(lifetimeSpent := session.Value().lifetimeSpent[r.value.slot := r.value.spent])
  {
    hide Buckets.FindCap;
    var found := Buckets.FindCap(session.caps[..], mint);
    if found.None? { return Err(CapExceeded); }
    var slot := found.value;
    if amount > session.caps[slot].perTx { return Err(CapExceeded); }
    var spent: int := session.lifetimeSpent[slot] + amount;
    if spent >= U64_LIMIT { return Err(Overflow); }
    if spent > session.lifetimeCap[slot] { return Err(CapExceeded); }
    return Ok(Pending(slot, spent));
  }

  datatype Pending = Pending(slot: nat, spent: U64)

  method ChargeSessionPath(env: Env, account: SmartAccount, key: Pubkey, session: SessionKey, sessionKey: Pubkey, cx: Context,
                           t: TransferArgs) returns (r: Result<()>)
    requires account.Valid() && session.Valid() && session.lifetimeSpent !in Accounts.Rings(account.buckets)
    requires session.lifetimeCap !in Accounts.Rings(account.buckets)
    modifies account.buckets, Accounts.Rings(account.buckets), session.lifetimeSpent
    ensures match ChargeBySession(env, old(account.Value()), key, SessionRef(sessionKey, old(session.Value())), cx, t)
            case Err(e) => r == Err(e)
            case Ok(c) => r.Ok? && account.Value() == c.account && Some(session.Value()) == c.session
  {
    hide Accounts.Values, AuthorizeSession, SpendLifetime, ChargeAccount;
    ghost var a, s := account.Value(), session.Value();
    var checked := CheckSession(env, session, sessionKey, t.signer, key, account.generation, cx.now);
    assert account.Value() == a && session.Value() == s;
    if checked.Fail? { return Err(checked.error); }
    var pending :- PendingLifetime(session, CapMint(t.mint), t.amount);
    assert account.Value() == a && session.Value() == s;
    var _ :- account.Debit(CapMint(t.mint), t.amount, cx.now);
    ghost var a' := account.Value();
    assert session.Value() == s;
    session.lifetimeSpent[pending.slot] := pending.spent;
    assert account.Value() == a';
    assert session.lifetimeSpent[..] == s.lifetimeSpent[pending.slot := pending.spent];
    return Ok(());
  }

  method ChargeRootPath(env: Env, account: SmartAccount, key: Pubkey, cx: Context, root: RootArgs, t: TransferArgs)
    returns (r: Result<()>)
    requires account.Valid()
    modifies account, account.buckets, Accounts.Rings(account.buckets)
    ensures match ChargeByRoot(env, old(account.Value()), key, cx, root, t)
            case Err(e) => r == Err(e)
            case Ok(c) => r.Ok? && account.Value() == c.account && c.session.None?
  {
    hide Accounts.Values, VerifyRoot, ActionHash, ChargeAccount, Buckets.FindCap;
    if !t.hasSysvar { return Err(BadInstructionLayout); }
    var _ :- account.VerifyRootAssertion(env, cx, root, key, ActionHash(env, RootTransfer(BodyOf(t))));
    var found := Buckets.FindCap(account.policy.largeThreshold, CapMint(t.mint));
    if found.None? { return Err(CapExceeded); }
    if t.amount > account.policy.largeThreshold[found.value].perTx { return Err(CapExceeded); }
    r := account.Debit(CapMint(t.mint), t.amount, cx.now);
  }

  /** Both sides are computed before either is written, so a refusal moves nothing. */
  method HandleMoveLamports(src: Lamports, dst: Lamports, amount: U64, floor: U64) returns (r: Result<()>)
    requires src != dst
    modifies src, dst
    ensures match MoveLamports(old(Balances(src.balance, dst.balance)), amount, floor)
            case Err(e) => r == Err(e) && src.balance == old(src.balance) && dst.balance == old(dst.balance)
            case Ok(b) => r.Ok? && Balances(src.balance, dst.balance) == b
  {
    if src.balance < amount { return Err(Overflow); }
    var newSrc := src.balance - amount;
    if newSrc < floor { return Err(RentFloor); }
    if dst.balance + amount >= U64_LIMIT { return Err(Overflow); }
    src.balance, dst.balance := newSrc, dst.balance + amount;
    return Ok(());
  }

  method MoveValue(env: Env, key: Pubkey, src: Lamports, dst: Lamports, t: TransferArgs) returns (r: Result<()>)
    requires t.destination.key != key ==> src != dst
    modifies src, dst
    ensures match Move(env, key, old(Balances(src.balance, dst.balance)), t)
            case Err(e) => r == Err(e) && src.balance == old(src.balance) && dst.balance == old(dst.balance)
            case Ok(b) => r.Ok? && Balances(src.balance, dst.balance) == b
  {
    hide CheckTokens, MoveLamports;
    match t.mint {
      case None =>
        if t.destination.key == key { return Err(InvalidAccountData); }
        r := HandleMoveLamports(src, dst, t.amount, env.rentFloor);
      case Some(mint) =>
        match CheckTokens(key, mint, t) {
          case Fail(e) => return Err(e);
          case Pass => return Ok(());
        }
    }
  }

  ghost function SessionFrame(session: SessionAccounts.SessionKey?): set<object> {
    if session == null then {} else {session.lifetimeSpent}
  }

  method HandleTransfer(env: Env, account: SmartAccount, key: Pubkey, session: SessionAccounts.SessionKey?, sessionKey: Pubkey,
                        src: Lamports, dst: Lamports, cx: Context, t: TransferArgs) returns (r: Result<()>)
    requires account.Valid() && (t.destination.key != key ==> src != dst)
    requires session != null ==>
               && session.Valid() && session.lifetimeSpent !in Accounts.Rings(account.buckets)
               && session.lifetimeCap !in Accounts.Rings(account.buckets)
    modifies account, account.buckets, Accounts.Rings(account.buckets), SessionFrame(session), src, dst
    ensures var s := if session == null then None else Some(SessionRef(sessionKey, old(session.Value())));
            match Transfer(env, old(account.Value()), key, s, old(Balances(src.balance, dst.balance)), cx, t)
            case Err(e) => r == Err(e)
            case Ok(o) =>
              && r.Ok? && account.Value() == o.account && Balances(src.balance, dst.balance) == o.balances
              && o.session == if session == null then None else Some(session.Value())
  {
    hide Accounts.Values, ChargeByRoot, ChargeBySession, Move, CheckAccountPda;
    if t.root.Some? == (session != null) { return Err(BadInstructionLayout); }
    ghost var a := account.Value();
    ghost var s := if session == null then None else Some(SessionRef(sessionKey, session.Value()));
    var home := CheckAddress(env, account, key);
    assert account.Value() == a;
    if home.Fail? { return Err(home.error); }
    var frozen :- account.Frozen();
    assert account.Value() == a;
    if !frozen.NotFrozen? { return Err(Error.Frozen); }
    if t.root.Some? {
      var _ :- ChargeRootPath(env, account, key, cx, t.root.value, t);
    } else {
      assert session.Value() == s.value.session;
      var _ :- ChargeSessionPath(env, account, key, session, sessionKey, cx, t);
    }
    ghost var a' := account.Value();
    r := MoveValue(env, key, src, dst, t);
    assert account.Value() == a';
  }
}
