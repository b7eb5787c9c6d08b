/**
  What succeeds in a reachable world, exactly. For an honest ceremony, one made by the owner for the
  current state, every check of the ceremony passes; what remains are the conditions of the instruction
  itself, and these lemmas name them all.
*/
module RunDecides {
  import opened Base
  import opened Buckets
  import opened Wire
  import opened State
  import PolicyRules
  import opened RootVerify
  import opened Lifecycle
  import opened Sessions
  import opened Transfers
  import opened World
  import opened Runs
  import opened RunCaps
  import opened RunSafety
  import Honest
  import Precompile

  /** The honest arguments and the transaction around them: fresh, and signed by the root in an earlier instruction. */
  ghost predicate HonestCeremony(env: Env, a: Account, key: Pubkey, cx: Context, action: Action, ix: Byte, expiry: I64,
                                 flags: Byte, signature: Bytes)
    requires a.originLen <= 64
  {
    var args := Honest.HonestArgs(env, a, key, action, ix, expiry, flags);
    && a.rootNonce + 1 < U64_LIMIT && FlagsOk(flags) && |signature| == 64
    && cx.now <= expiry <= cx.now + MAX_ROOT_EXPIRY_SECS && cx.now + MAX_ROOT_EXPIRY_SECS < I64_LIMIT
    && ix < cx.sysvar.current && ix < |cx.sysvar.ixs|
    && cx.sysvar.ixs[ix] == Precompile.Instruction(Precompile.SECP256R1_ID,
         Precompile.InstructionData(a.rootPubkey, signature, args.authenticatorData + env.sha256(args.clientDataJson), 1,
                                    Precompile.SAME_INSTRUCTION))
  }

  /** On every reachable account, frozen or not, an honest ceremony passes and consumes one nonce. */
  lemma HonestAlwaysPasses(env: Env, run: seq<Timed>, key: Pubkey, cx: Context, action: Action, ix: Byte, expiry: I64,
                           flags: Byte, signature: Bytes)
    requires key in Run(env, run).w.accounts
    ensures var a := Run(env, run).w.accounts[key];
            && CheckAccountPda(env, key, a).Pass? && a.originLen <= 64
            && (HonestCeremony(env, a, key, cx, action, ix, expiry, flags, signature) ==>
                  VerifyRoot(env, a, cx, Honest.HonestArgs(env, a, key, action, ix, expiry, flags), key,
                             ActionHash(env, action)) == Ok(a.(rootNonce := a.rootNonce + 1)))
  {
    hide Run, InOrder, Honest.HonestArgs, VerifyRoot, ActionHash, SignedMessage, Precompile.InstructionData;
    RunInOrder(env, run);
    var a := Run(env, run).w.accounts[key];
    ReadyInOrder(env, Run(env, run).w, key);
    if HonestCeremony(env, a, key, cx, action, ix, expiry, flags, signature) {
      Honest.HonestIsAccepted(env, a, cx, key, action, ix, expiry, flags, signature);
    }
  }

  lemma ReadyInOrder(env: Env, w: World, key: Pubkey)
    requires InOrder(env, w) && key in w.accounts
    ensures Honest.CeremonyReady(w.accounts[key]) && CheckAccountPda(env, key, w.accounts[key]).Pass?
    ensures w.accounts[key].originLen <= 64
  {
    hide PolicyRules.PolicyOk, SessionInOrder, Honest.IsPlain, CheckAccountPda;
    assert AccountInOrder(env, w, key);
  }

  /** An honest nonce rotation succeeds in every reachable world, under a freeze too. */
  lemma RotationStaysPossible(env: Env, run: seq<Timed>, key: Pubkey, cx: Context, ix: Byte, expiry: I64, flags: Byte,
                              signature: Bytes)
    requires key in Run(env, run).w.accounts && Run(env, run).w.accounts[key].originLen <= 64
    requires HonestCeremony(env, Run(env, run).w.accounts[key], key, cx, RotateNonce, ix, expiry, flags, signature)
    ensures var a := Run(env, run).w.accounts[key];
            var root := Honest.HonestArgs(env, a, key, RotateNonce, ix, expiry, flags);
            Exec(env, Run(env, run), CallRotate(key, root), cx).Ok?
  {
    hide Run, Honest.HonestArgs, VerifyRoot, ActionHash, HonestCeremony, CheckAccountPda, CeremonyOf;
    HonestAlwaysPasses(env, run, key, cx, RotateNonce, ix, expiry, flags, signature);
  }

  lemma SessionSits(env: Env, w: World, s: Pubkey)
    requires InOrder(env, w) && s in w.sessions
    ensures w.sessions[s].account in w.accounts
    ensures CheckSessionPda(env, SessionRef(s, w.sessions[s]), w.sessions[s].account).Pass?
  {
    hide SessionOk, AccountInOrder, CheckSessionPda;
    assert SessionInOrder(env, w, s);
  }

  /** Closing under the root: an honest ceremony closes exactly the account's session of the signed key, to the signed payer. */
  lemma HonestRevocationDecides(env: Env, run: seq<Timed>, key: Pubkey, s: Pubkey, payer: Pubkey, b: RevokeBody, cx: Context,
                                ix: Byte, expiry: I64, flags: Byte, signature: Bytes)
    requires key in Run(env, run).w.accounts && Run(env, run).w.accounts[key].originLen <= 64
    requires HonestCeremony(env, Run(env, run).w.accounts[key], key, cx, RevokeSession(b), ix, expiry, flags, signature)
    ensures var w := Run(env, run).w;
            var root := Honest.HonestArgs(env, w.accounts[key], key, RevokeSession(b), ix, expiry, flags);
            Exec(env, Run(env, run), CallRevokeRoot(key, s, payer, root, b), cx).Ok? <==>
              && s in w.sessions && w.sessions[s].account == key && w.sessions[s].pubkey == b.sessionPubkey
              && payer == b.refundTo && CanRefund(w, s, payer)
  {
    hide Run, Honest.HonestArgs, VerifyRoot, ActionHash, HonestCeremony, CheckAccountPda, CheckSessionPda, CeremonyOf, InOrder;
    var w := Run(env, run).w;
    HonestAlwaysPasses(env, run, key, cx, RevokeSession(b), ix, expiry, flags, signature);
    if s in w.sessions { SessionAddressDecides(env, run, s, key); }
  }

  /** The address check passes for exactly the account the session names: no stored session sits anywhere else. */
  lemma SessionAddressDecides(env: Env, run: seq<Timed>, s: Pubkey, key: Pubkey)
    requires s in Run(env, run).w.sessions
    ensures var session := Run(env, run).w.sessions[s];
            CheckSessionPda(env, SessionRef(s, session), key).Pass? <==> session.account == key
  {
    hide Run, InOrder;
    RunInOrder(env, run);
    SessionSits(env, Run(env, run).w, s);
  }

  /** A session key can always close its own session, and no other, under a freeze too. */
  lemma SelfRevocationDecides(env: Env, run: seq<Timed>, key: Pubkey, s: Pubkey, signer: Pubkey, payer: Pubkey, cx: Context)
    ensures var w := Run(env, run).w;
            Exec(env, Run(env, run), CallRevokeSelf(key, s, signer, payer), cx).Ok? <==>
              && s in w.sessions && w.sessions[s].account == key && w.sessions[s].pubkey == signer && CanRefund(w, s, payer)
  {
    hide Run, InOrder, CheckAccountPda, CheckSessionPda;
    var w := Run(env, run).w;
    RunInOrder(env, run);
    if key in w.accounts { ReadyInOrder(env, w, key); }
    if s in w.sessions {
      SessionSits(env, w, s);
      SessionAddressDecides(env, run, s, key);
    }
  }

  /** An honest freeze succeeds exactly on an account that is not frozen. */
  lemma HonestFreezeDecides(env: Env, run: seq<Timed>, key: Pubkey, cx: Context, ix: Byte, expiry: I64, flags: Byte,
                            signature: Bytes)
    requires key in Run(env, run).w.accounts && Run(env, run).w.accounts[key].originLen <= 64
    requires HonestCeremony(env, Run(env, run).w.accounts[key], key, cx, FreezeAccount, ix, expiry, flags, signature)
    ensures var root := Honest.HonestArgs(env, Run(env, run).w.accounts[key], key, FreezeAccount, ix, expiry, flags);
            var r := Exec(env, Run(env, run), CallFreeze(key, root), cx);
            if FrozenSince(Run(env, run).log, key).None? then r.Ok? else r == Err(AlreadyFrozen)
  {
    hide Run, Honest.HonestArgs, VerifyRoot, ActionHash, HonestCeremony, CheckAccountPda, CeremonyOf, FrozenSince;
    HonestAlwaysPasses(env, run, key, cx, FreezeAccount, ix, expiry, flags, signature);
    FreezeIsRecorded(env, run, key);
  }

  /** An honest unfreeze succeeds exactly once the timelock has passed since the freeze in force. */
  lemma HonestUnfreezeDecides(env: Env, run: seq<Timed>, key: Pubkey, cx: Context, ix: Byte, expiry: I64, flags: Byte,
                              signature: Bytes)
    requires key in Run(env, run).w.accounts && Run(env, run).w.accounts[key].originLen <= 64
    requires HonestCeremony(env, Run(env, run).w.accounts[key], key, cx, UnfreezeAccount, ix, expiry, flags, signature)
    ensures var a, since := Run(env, run).w.accounts[key], FrozenSince(Run(env, run).log, key);
            var root := Honest.HonestArgs(env, a, key, UnfreezeAccount, ix, expiry, flags);
            var r := Exec(env, Run(env, run), CallUnfreeze(key, root), cx);
            if since.None? then r == Err(InvalidAccountData)
            else if since.value + a.policy.timelockSecs <= cx.now then r.Ok?
            else if since.value + a.policy.timelockSecs >= I64_LIMIT then r == Err(Overflow)
            else r == Err(TimelockNotElapsed)
  {
    hide Run, Honest.HonestArgs, VerifyRoot, ActionHash, HonestCeremony, CheckAccountPda, CeremonyOf, FrozenSince, InOrder;
    HonestAlwaysPasses(env, run, key, cx, UnfreezeAccount, ix, expiry, flags, signature);
    FreezeIsRecorded(env, run, key);
    RunInOrder(env, run);
    OrderedPolicy(env, Run(env, run).w, key);
    LongTimelock(Run(env, run).w.accounts[key].policy);
  }

  // ---------------------------------------------------------------- grants

  /** The address a grant is made at: derivable, no account, and blank or the named session of the same account. */
  ghost predicate GrantSlot(env: Env, w: World, key: Pubkey, b: GrantBody) {
    var pda := FindAddress(env, [SESSION_SEED, key, b.sessionPubkey]);
    && pda.Some? && pda.value.key !in w.accounts
    && (pda.value.key in w.sessions ==>
          w.sessions[pda.value.key].account == key && w.sessions[pda.value.key].pubkey == b.sessionPubkey)
  }

  function GrantAddress(env: Env, key: Pubkey, b: GrantBody): Pubkey
    requires FindAddress(env, [SESSION_SEED, key, b.sessionPubkey]).Some?
  {
    FindAddress(env, [SESSION_SEED, key, b.sessionPubkey]).value.key
  }

  /** Admissible under the policy, signed over the prior authority, and no lifetime cap below the spending so far. */
  ghost predicate GrantFits(env: Env, a: Account, prior: Session, b: GrantBody, now: I64) {
    && GrantAdmissible(a.policy, b, now) && CoversSpending(prior, b.caps, b.lifetimeCap)
    && b.priorAuthorityHash
       == (if prior.version == 0 then Zeros(32)
           else env.keccak(AuthorityPreimage(Authority(prior.account, prior.pubkey, prior.caps, prior.lifetimeCap))))
  }

  lemma UpsertDecides(env: Env, run: seq<Timed>, key: Pubkey, s: Pubkey, bump: Byte, b: GrantBody, now: I64)
    requires var w := Run(env, run).w;
             key in w.accounts && s !in w.accounts && GrantAdmissible(w.accounts[key].policy, b, now)
    ensures var w := Run(env, run).w;
            Upsert(PriorSession(w, s), key, b, bump, w.accounts[key].generation).Ok? <==>
              && (s in w.sessions ==> w.sessions[s].account == key && w.sessions[s].pubkey == b.sessionPubkey)
              && CoversSpending(PriorSession(w, s), b.caps, b.lifetimeCap)
  {
    hide Run, InOrder, CoversSpending, Upsert, ValidateShape, ValidateAgainstPolicy, GrantableCaps, PolicyRules.SubMask;
    var w := Run(env, run).w;
    ShapeAndPolicyMean(w.accounts[key].policy, b, now);
    if s in w.sessions && !(w.sessions[s].account == key && w.sessions[s].pubkey == b.sessionPubkey) {
      RunInOrder(env, run);
      OthersRefused(env, w, s, key, b, bump, w.accounts[key].generation);
    } else {
      GrantsNeverRunOut(env, run, key, s, bump, b, now);
    }
  }

  lemma OthersRefused(env: Env, w: World, s: Pubkey, key: Pubkey, b: GrantBody, bump: Byte, generation: U64)
    requires InOrder(env, w) && s in w.sessions
    requires w.sessions[s].account != key || w.sessions[s].pubkey != b.sessionPubkey
    ensures Upsert(w.sessions[s], key, b, bump, generation).Err?
  {
    hide AccountInOrder, CheckSessionPda, MergeCaps, TableOk, PolicyRules.SubMask;
    assert SessionInOrder(env, w, s);
  }

  lemma GrantAfterCeremony(env: Env, a: Account, a': Account, key: Pubkey, s: Session, bump: Byte, cx: Context, root: RootArgs,
                           b: GrantBody)
    requires CheckAccountPda(env, key, a).Pass? && a.frozenKind <= 1 && a' == a.(rootNonce := a'.rootNonce)
    requires VerifyRoot(env, a, cx, root, key, ActionHash(env, GrantSession(b))) == Ok(a')
    ensures Grant(env, a, key, s, bump, cx, root, b).Ok? <==>
              && a.frozenKind == 0 && GrantAdmissible(a.policy, b, cx.now) && PriorHash(env, s) == b.priorAuthorityHash
              && Upsert(s, key, b, bump, a.generation).Ok?
    ensures a.frozenKind != 0 ==> Grant(env, a, key, s, bump, cx, root, b) == Err(Frozen)
  {
    hide VerifyRoot, ActionHash, CheckAccountPda, PriorHash, Upsert, ValidateShape, ValidateAgainstPolicy, GrantAdmissible;
    ShapeAndPolicyMean(a.policy, b, cx.now);
  }

  /**
    An honest grant succeeds exactly if no freeze is in force, its address is free for it, it is admissible
    under the policy, it was signed over the session's present authority, and covers what was spent.
  */
  lemma HonestGrantDecides(env: Env, run: seq<Timed>, key: Pubkey, b: GrantBody, cx: Context, ix: Byte, expiry: I64,
                           flags: Byte, signature: Bytes)
    requires key in Run(env, run).w.accounts && Run(env, run).w.accounts[key].originLen <= 64
    requires HonestCeremony(env, Run(env, run).w.accounts[key], key, cx, GrantSession(b), ix, expiry, flags, signature)
    ensures var m, a := Run(env, run), Run(env, run).w.accounts[key];
            var root := Honest.HonestArgs(env, a, key, GrantSession(b), ix, expiry, flags);
            Exec(env, m, CallGrant(key, root, b), cx).Ok? <==>
              && FrozenSince(m.log, key).None? && GrantSlot(env, m.w, key, b)
              && GrantFits(env, a, PriorSession(m.w, GrantAddress(env, key, b)), b, cx.now)
    ensures var m, a := Run(env, run), Run(env, run).w.accounts[key];
            var root := Honest.HonestArgs(env, a, key, GrantSession(b), ix, expiry, flags);
            GrantSlot(env, m.w, key, b) && FrozenSince(m.log, key).Some? ==>
              Exec(env, m, CallGrant(key, root, b), cx) == Err(Frozen)
  {
    hide Run, Honest.HonestArgs, VerifyRoot, ActionHash, HonestCeremony, CheckAccountPda, CeremonyOf, FrozenSince, InOrder,
      FindAddress, Grant, GrantAdmissible, CoversSpending, AuthorityPreimage, Zeros, Upsert, FrozenTag;
    var m, a := Run(env, run), Run(env, run).w.accounts[key];
    var root := Honest.HonestArgs(env, a, key, GrantSession(b), ix, expiry, flags);
    HonestAlwaysPasses(env, run, key, cx, GrantSession(b), ix, expiry, flags, signature);
    FreezeInForce(env, run, key);
    var pda := FindAddress(env, [SESSION_SEED, key, b.sessionPubkey]);
    if pda.Some? && pda.value.key !in m.w.accounts {
      var s := PriorSession(m.w, pda.value.key);
      GrantAfterCeremony(env, a, a.(rootNonce := a.rootNonce + 1), key, s, pda.value.bump, cx, root, b);
      if GrantAdmissible(a.policy, b, cx.now) { UpsertDecides(env, run, key, pda.value.key, pda.value.bump, b, cx.now); }
    }
  }

  lemma FreezeInForce(env: Env, run: seq<Timed>, key: Pubkey)
    requires key in Run(env, run).w.accounts
    ensures Run(env, run).w.accounts[key].frozenKind <= 1
    ensures Run(env, run).w.accounts[key].frozenKind == 0 <==> FrozenSince(Run(env, run).log, key).None?
  {
    hide Run, FrozenSince;
    FreezeIsRecorded(env, run, key);
  }

  // ---------------------------------------------------------------- transfers

  /** The value can move: lamports with the rent floor kept, or tokens from the vault to somebody else. */
  ghost predicate CanMove(env: Env, w: World, key: Pubkey, t: TransferArgs) {
    match t.mint
    case None =>
      && t.destination.key != key && Balance(w, key) - t.amount >= env.rentFloor
      && Balance(w, t.destination.key) + t.amount < U64_LIMIT
    case Some(mint) => CheckTokens(key, mint, t).Pass?
  }

  lemma MoveDecides(env: Env, w: World, key: Pubkey, t: TransferArgs)
    ensures Move(env, key, Balances(Balance(w, key), Balance(w, t.destination.key)), t).Ok? <==> CanMove(env, w, key, t)
  {
    hide CheckTokens;
  }

  /** The account-wide caps leave room for the amount, on everything that ever left the account of the mint. */
  ghost predicate LimiterAllows(m: Machine, key: Pubkey, mint: Pubkey, amount: U64, now: I64)
    requires key in m.w.accounts
  {
    var a := m.w.accounts[key];
    var k := FindCap(a.policy.caps, mint);
    && 0 <= now && k.Some? && Allowed(LedgerOf(m.log, key, mint), a.policy.caps[k.value], amount, now)
    && BeforeTimeLimit(a.buckets[k.value])
  }

  lemma TransferAfterCeremony(env: Env, a: Account, a': Account, key: Pubkey, b: Balances, cx: Context, root: RootArgs,
                              t: TransferArgs)
    requires CheckAccountPda(env, key, a).Pass? && a.frozenKind <= 1 && a' == a.(rootNonce := a'.rootNonce)
    requires t.root == Some(root)
    requires VerifyRoot(env, a, cx, root, key, ActionHash(env, RootTransfer(BodyOf(t)))) == Ok(a')
    ensures Transfer(env, a, key, None, b, cx, t).Ok? <==>
              && a.frozenKind == 0 && t.hasSysvar && UnderThreshold(a.policy, CapMint(t.mint), t.amount)
              && ChargeAccount(a, CapMint(t.mint), t.amount, cx.now).Ok? && Move(env, key, b, t).Ok?
    ensures a.frozenKind != 0 ==> Transfer(env, a, key, None, b, cx, t) == Err(Frozen)
  {
    hide VerifyRoot, ActionHash, CheckAccountPda, Move, Debited, FindCap;
  }

  /**
    An honest root transfer succeeds exactly if no freeze is in force, the amount is within the root's
    threshold for the mint, the ledger leaves room for it, and the value can move. The days of the mint's
    movements must not have gone back; else the limiter may differ from the ledger (`ClockLimits.DecidesExactly`).
  */
  lemma HonestTransferDecides(env: Env, run: seq<Timed>, key: Pubkey, t: TransferArgs, cx: Context, ix: Byte, expiry: I64,
                              flags: Byte, signature: Bytes)
    requires key in Run(env, run).w.accounts && Run(env, run).w.accounts[key].originLen <= 64
    requires HonestCeremony(env, Run(env, run).w.accounts[key], key, cx, RootTransfer(BodyOf(t)), ix, expiry, flags, signature)
    requires t.root == Some(Honest.HonestArgs(env, Run(env, run).w.accounts[key], key, RootTransfer(BodyOf(t)), ix, expiry,
                                              flags))
    requires Steady(LedgerOf(Run(env, run).log, key, CapMint(t.mint)) + [Buckets.Entry(cx.now, t.amount)])
    ensures var m, a, mint := Run(env, run), Run(env, run).w.accounts[key], CapMint(t.mint);
            Exec(env, m, CallTransfer(key, None, t), cx).Ok? <==>
              && FrozenSince(m.log, key).None? && t.hasSysvar && UnderThreshold(a.policy, mint, t.amount)
              && LimiterAllows(m, key, mint, t.amount, cx.now) && CanMove(env, m.w, key, t)
    ensures FrozenSince(Run(env, run).log, key).Some? ==>
              Exec(env, Run(env, run), CallTransfer(key, None, t), cx) == Err(Frozen)
  {
    hide Run, Honest.HonestArgs, VerifyRoot, ActionHash, HonestCeremony, CheckAccountPda, FrozenSince, CanMove, Move,
      Transfer, ChargeAccount, UnderThreshold, Steady, LedgerOf, FindCap, Allowed, BeforeTimeLimit, TransferDone;
    var m, a := Run(env, run), Run(env, run).w.accounts[key];
    HonestAlwaysPasses(env, run, key, cx, RootTransfer(BodyOf(t)), ix, expiry, flags, signature);
    FreezeInForce(env, run, key);
    var b := Balances(Balance(m.w, key), Balance(m.w, t.destination.key));
    TransferAfterCeremony(env, a, a.(rootNonce := a.rootNonce + 1), key, b, cx, t.root.value, t);
    LimiterDecides(env, run, key, CapMint(t.mint), t.amount, cx.now);
    MoveDecides(env, m.w, key, t);
  }

  /**
    A session's transfer succeeds exactly within the session's own limits, with no freeze in force, and
    under the same two conditions on the ledger and the value.
  */
  lemma SpendDecides(env: Env, run: seq<Timed>, key: Pubkey, s: Pubkey, t: TransferArgs, cx: Context)
    requires Steady(LedgerOf(Run(env, run).log, key, CapMint(t.mint)) + [Buckets.Entry(cx.now, t.amount)])
    ensures var m := Run(env, run);
            Exec(env, m, CallTransfer(key, Some(s), t), cx).Ok? <==>
              && key in m.w.accounts && s in m.w.sessions && t.root.None? && FrozenSince(m.log, key).None?
              && SessionMay(env, m.w.accounts[key], key, SessionRef(s, m.w.sessions[s]), cx, t)
              && LimiterAllows(m, key, CapMint(t.mint), t.amount, cx.now) && CanMove(env, m.w, key, t)
  {
    hide Run, CheckAccountPda, FrozenSince, CanMove, Move, ChargeAccount, Steady, LedgerOf, FindCap, Allowed,
      BeforeTimeLimit, TransferDone, SessionMay, ChargeBySession, ChargeByRoot, InOrder;
    var m := Run(env, run);
    if key in m.w.accounts && s in m.w.sessions {
      var a, ref := m.w.accounts[key], SessionRef(s, m.w.sessions[s]);
      RunInOrder(env, run);
      ReadyInOrder(env, m.w, key);
      FreezeInForce(env, run, key);
      LimiterDecides(env, run, key, CapMint(t.mint), t.amount, cx.now);
      MoveDecides(env, m.w, key, t);
      if t.root.None? && a.frozenKind == 0 { SessionTransferDecides(env, a, key, ref, cx, t); }
    }
  }
}
