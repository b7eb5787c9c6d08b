/** Every accepted instruction makes exactly the step its event records, and keeps the world in order. */
module Steps {
  import opened Base
  import Buckets
  import opened Wire
  import opened State
  import PolicyRules
  import opened RootVerify
  import opened Lifecycle
  import opened Sessions
  import opened Transfers
  import opened World
  import Base64Url
  import ClientDataJson
  import Honest

  /** One event was appended, and it says what happened. */
  ghost predicate Advances(env: Env, m: Machine, m': Machine, now: I64) {
    && |m'.log| == |m.log| + 1 && m'.log[..|m.log|] == m.log
    && m'.log[|m.log|].time == now && Stepped(env, m.w, m'.w, m'.log[|m.log|])
  }

  lemma CeremonyIsPresented(env: Env, a: Account, cx: Context, root: RootArgs, key: Pubkey, action: Action)
    requires VerifyRoot(env, a, cx, root, key, ActionHash(env, action)).Ok?
    ensures var c := CeremonyOf(env, a, key, root, action);
            && TranscriptFits(env, a, key, c.transcript.expiryTs, c.action, c.transcript) && c.action == action
            && c.challenge == Base64Url.Encode(env.keccak(TranscriptPreimage(c.transcript)))
            && cx.now <= c.transcript.expiryTs <= cx.now + MAX_ROOT_EXPIRY_SECS
  {
    hide VerifyRoot, Base64Url.Encode, TranscriptPreimage, ActionHash, TranscriptFits, ClientDataJson.ParseStrict,
      AuthenticatorValid, RuntimeVerified;
    VerifiedMeans(env, a, cx, root, key, action);
    CurrentFits(env, a, key, root.expiryTs, action);
  }

  // ---------------------------------------------------------------- one lemma per instruction

  lemma CreateSteps(env: Env, m: Machine, args: CreateArgs, now: I64)
    requires ExecCreate(env, m, args, now).Ok?
    ensures Advances(env, m, ExecCreate(env, m, args, now).value, now)
  {
    hide CreateAccount, AccountOk, FindFrom, Untouched, PolicyRules.PolicyAs;
    var pda := FindAddress(env, [ACCOUNT_SEED, args.ownerSeed]).value;
    CreatedIsReady(env, args, pda.bump);
    assert [ACCOUNT_SEED, args.ownerSeed] + [[pda.bump]] == [ACCOUNT_SEED, args.ownerSeed, [pda.bump]];
  }

  /** The three root instructions whose only effect is on the account. */
  lemma RootOutcomeSteps(env: Env, m: Machine, key: Pubkey, cx: Context, root: RootArgs, action: Action, effect: Effect,
                         r: Result<Account>)
    requires key in m.w.accounts && r.Ok?
    requires VerifyRoot(env, m.w.accounts[key], cx, root, key, ActionHash(env, action)).Ok?
    requires (effect == Rotated && action == RotateNonce) || (effect == Froze && action == FreezeAccount)
          || (effect == Unfroze && action == UnfreezeAccount)
    requires r.value.rootNonce == m.w.accounts[key].rootNonce + 1
    requires forall c :: AccountChanged(m.w.accounts[key], r.value, Event(key, cx.now, effect, c))
    ensures Advances(env, m, RootOutcome(env, m, key, root, cx.now, action, effect, r).value, cx.now)
  {
    hide VerifyRoot, ActionHash, AccountChanged, TranscriptFits, Base64Url.Encode, TranscriptPreimage, CeremonyOf;
    CeremonyIsPresented(env, m.w.accounts[key], cx, root, key, action);
  }

  lemma RotateSteps(env: Env, a: Account, key: Pubkey, cx: Context, root: RootArgs)
    requires Rotate(env, a, key, cx, root).Ok?
    ensures VerifyRoot(env, a, cx, root, key, ActionHash(env, RotateNonce)).Ok?
    ensures var a' := Rotate(env, a, key, cx, root).value;
            a'.rootNonce == a.rootNonce + 1 && forall c :: AccountChanged(a, a', Event(key, cx.now, Rotated, c))
  {
    hide VerifyRoot, ActionHash;
    VerifiedNonce(env, a, cx, root, key, RotateNonce);
  }

  lemma FreezeSteps(env: Env, a: Account, key: Pubkey, cx: Context, root: RootArgs)
    requires a.frozenKind <= 1 && Freeze(env, a, key, cx, root).Ok?
    ensures VerifyRoot(env, a, cx, root, key, ActionHash(env, FreezeAccount)).Ok?
    ensures var a' := Freeze(env, a, key, cx, root).value;
            a'.rootNonce == a.rootNonce + 1 && forall c :: AccountChanged(a, a', Event(key, cx.now, Froze, c))
  {
    hide VerifyRoot, ActionHash;
    VerifiedNonce(env, a, cx, root, key, FreezeAccount);
  }

  lemma UnfreezeSteps(env: Env, a: Account, key: Pubkey, cx: Context, root: RootArgs)
    requires a.frozenKind <= 1 && Unfreeze(env, a, key, cx, root).Ok?
    ensures VerifyRoot(env, a, cx, root, key, ActionHash(env, UnfreezeAccount)).Ok?
    ensures var a' := Unfreeze(env, a, key, cx, root).value;
            a'.rootNonce == a.rootNonce + 1 && forall c :: AccountChanged(a, a', Event(key, cx.now, Unfroze, c))
  {
    hide VerifyRoot, ActionHash;
    VerifiedNonce(env, a, cx, root, key, UnfreezeAccount);
  }

  lemma PriorIsOk(env: Env, w: World, key: Pubkey, s: Pubkey)
    requires InOrder(env, w) && key in w.accounts && s !in w.accounts
    requires s in w.sessions ==> w.sessions[s].account == key
    ensures PriorOk(PriorSession(w, s), key, w.accounts[key].policy)
  {
    hide SessionOk, AccountOk;
    if s in w.sessions { assert SessionInOrder(env, w, s); }
  }

  lemma GrantNamesSession(env: Env, a: Account, key: Pubkey, s: Session, bump: Byte, cx: Context, root: RootArgs, b: GrantBody)
    requires Grant(env, a, key, s, bump, cx, root, b).Ok?
    ensures s.version != 0 ==> s.account == key && s.pubkey == b.sessionPubkey
  {
    hide VerifyRoot, ActionHash, ValidateShape, ValidateAgainstPolicy, PriorHash, MergeCaps;
  }

  /** A blank account has spent nothing and holds no mint, exactly as an empty table. */
  lemma OverBlank(key: Pubkey, s: Session, p: Policy, b: GrantBody, bump: Byte, generation: U64, r: Session)
    requires PriorOk(s, key, p) && |b.caps| <= |b.lifetimeCap| && Opened(s, key, b, bump).Ok?
    requires Overlaid(BeforeMerge(s, key, b, bump, generation), r, b.caps, b.lifetimeCap)
    ensures forall mint :: OverlaidAt(s, r, b.caps, b.lifetimeCap, mint)
    ensures r.opsMask == b.opsMask && r.displayLabel == b.displayLabel
    ensures r.bump == if s.version == 0 then bump else s.bump
  {
    hide OverlaidAt, TableOk, EmptySlots, EmptyAmounts;
    var t := BeforeMerge(s, key, b, bump, generation);
    assert t.caps == s.caps && t.lifetimeCap == s.lifetimeCap && t.lifetimeSpent == s.lifetimeSpent;
    forall mint ensures OverlaidAt(s, r, b.caps, b.lifetimeCap, mint) {
      assert OverlaidAt(t, r, b.caps, b.lifetimeCap, mint);
      SameOverlay(t, s, r, b.caps, b.lifetimeCap, mint);
    }
  }

  lemma SameOverlay(t: Session, s: Session, r: Session, caps: seq<Buckets.MintCap>, lifetime: seq<U64>, mint: Pubkey)
    requires t.caps == s.caps && t.lifetimeCap == s.lifetimeCap && t.lifetimeSpent == s.lifetimeSpent
    requires |caps| <= |lifetime| && OverlaidAt(t, r, caps, lifetime, mint)
    ensures OverlaidAt(s, r, caps, lifetime, mint)
  {
    hide Buckets.FindCap;
  }

  lemma GrantOpens(env: Env, a: Account, key: Pubkey, s: Session, bump: Byte, cx: Context, root: RootArgs, b: GrantBody)
    requires Grant(env, a, key, s, bump, cx, root, b).Ok?
    ensures Opened(s, key, b, bump).Ok?
  {
    hide VerifyRoot, ActionHash, ValidateShape, ValidateAgainstPolicy, PriorHash, MergeCaps, Opened;
  }

  lemma PriorNamed(env: Env, w: World, key: Pubkey, s: Pubkey, bump: Byte, cx: Context, root: RootArgs, b: GrantBody)
    requires InOrder(env, w) && key in w.accounts && s in w.sessions
    requires Grant(env, w.accounts[key], key, w.sessions[s], bump, cx, root, b).Ok?
    ensures w.sessions[s].version == 1 && w.sessions[s].account == key && w.sessions[s].pubkey == b.sessionPubkey
    ensures CheckSessionPda(env, SessionRef(s, w.sessions[s]), key).Pass?
  {
    hide Grant, SessionOk, AccountInOrder, CheckSessionPda;
    assert SessionInOrder(env, w, s);
    SessionVersion(w.sessions[s], w.sessions[s].account, w.accounts[w.sessions[s].account].policy);
    GrantNamesSession(env, w.accounts[key], key, w.sessions[s], bump, cx, root, b);
  }

  /** What an accepted grant hands back, at a found address of a world in order. */
  lemma GrantFacts(env: Env, w: World, key: Pubkey, root: RootArgs, b: GrantBody, cx: Context, pda: Pda, g: GrantResult)
    requires InOrder(env, w) && key in w.accounts && pda.key !in w.accounts
    requires FindAddress(env, [SESSION_SEED, key, b.sessionPubkey]) == Some(pda)
    requires Grant(env, w.accounts[key], key, PriorSession(w, pda.key), pda.bump, cx, root, b) == Ok(g)
    ensures VerifyRoot(env, w.accounts[key], cx, root, key, ActionHash(env, GrantSession(b))).Ok?
    ensures w.accounts[key].frozenKind == 0 && g.account == w.accounts[key].(rootNonce := g.account.rootNonce)
    ensures g.account.rootNonce == w.accounts[key].rootNonce + 1
    ensures SessionGranted(PriorSession(w, pda.key), g.session, w.accounts[key], key, cx.now, b)
    ensures CheckSessionPda(env, SessionRef(pda.key, g.session), key).Pass?
    ensures pda.key in w.sessions ==> w.sessions[pda.key].account == key
  {
    hide VerifyRoot, ActionHash, Grant, AccountOk, SessionOk, Overlaid, OverlaidAt, GrantableCaps, Opened, BeforeMerge,
      FindAddress, CheckSessionPda, InOrder;
    var a, s := w.accounts[key], PriorSession(w, pda.key);
    if pda.key in w.sessions { PriorNamed(env, w, key, pda.key, pda.bump, cx, root, b); }
    OrderedAccount(env, w, key);
    PriorIsOk(env, w, key, pda.key);
    GrantMeans(env, a, key, s, pda.bump, cx, root, b);
    GrantOpens(env, a, key, s, pda.bump, cx, root, b);
    OverBlank(key, s, a.policy, b, pda.bump, a.generation, g.session);
    SessionVersion(g.session, key, a.policy);
    GrantedAddress(env, w, key, b, pda, g.session);
  }

  lemma OrderedAccount(env: Env, w: World, key: Pubkey)
    requires InOrder(env, w) && key in w.accounts
    ensures AccountOk(w.accounts[key])
  {
    hide AccountOk, SessionInOrder;
    assert AccountInOrder(env, w, key);
  }

  lemma GrantSteps(env: Env, m: Machine, key: Pubkey, root: RootArgs, b: GrantBody, cx: Context, pda: Pda)
    requires InOrder(env, m.w) && key in m.w.accounts && pda.key !in m.w.accounts
    requires FindAddress(env, [SESSION_SEED, key, b.sessionPubkey]) == Some(pda)
    requires GrantOutcome(env, m, key, root, b, cx, pda).Ok?
    ensures Advances(env, m, GrantOutcome(env, m, key, root, b, cx, pda).value, cx.now)
  {
    hide VerifyRoot, ActionHash, Grant, TranscriptFits, Base64Url.Encode, TranscriptPreimage, CeremonyOf, SessionGranted, FindAddress,
      CheckSessionPda, InOrder;
    var a := m.w.accounts[key];
    var g := Grant(env, a, key, PriorSession(m.w, pda.key), pda.bump, cx, root, b).value;
    GrantFacts(env, m.w, key, root, b, cx, pda, g);
    CeremonyIsPresented(env, a, cx, root, key, GrantSession(b));
  }

  /** The session sits at its derived address: just found if it is new, unchanged if it is not. */
  lemma GrantedAddress(env: Env, w: World, key: Pubkey, b: GrantBody, pda: Pda, r: Session)
    requires FindAddress(env, [SESSION_SEED, key, b.sessionPubkey]) == Some(pda)
    requires r.account == key && r.pubkey == b.sessionPubkey
    requires r.bump == if PriorSession(w, pda.key).version == 0 then pda.bump else PriorSession(w, pda.key).bump
    requires pda.key in w.sessions ==>
               && CheckSessionPda(env, SessionRef(pda.key, w.sessions[pda.key]), key).Pass?
               && w.sessions[pda.key].version == 1 && w.sessions[pda.key].pubkey == r.pubkey
    ensures CheckSessionPda(env, SessionRef(pda.key, r), key).Pass?
  {
    assert [SESSION_SEED, key, b.sessionPubkey] + [[pda.bump]] == [SESSION_SEED, key, b.sessionPubkey, [pda.bump]];
  }

  lemma SessionVersion(s: Session, key: Pubkey, p: Policy)
    requires SessionOk(s, key, p)
    ensures s.version == 1 && s.account == key
  {
    hide TableOk, PolicyRules.SubMask;
  }

  lemma RevokeRootSteps(env: Env, m: Machine, key: Pubkey, s: Pubkey, payer: Pubkey, root: RootArgs, b: RevokeBody, cx: Context)
    requires ExecRevokeRoot(env, m, key, s, payer, root, b, cx).Ok?
    ensures Advances(env, m, ExecRevokeRoot(env, m, key, s, payer, root, b, cx).value, cx.now)
  {
    hide VerifyRoot, ActionHash, TranscriptFits, Base64Url.Encode, TranscriptPreimage, CeremonyOf;
    CeremonyIsPresented(env, m.w.accounts[key], cx, root, key, RevokeSession(b));
    VerifiedNonce(env, m.w.accounts[key], cx, root, key, RevokeSession(b));
  }

  lemma RevokeSelfSteps(env: Env, m: Machine, key: Pubkey, s: Pubkey, signer: Pubkey, payer: Pubkey, now: I64)
    requires ExecRevokeSelf(env, m, key, s, signer, payer, now).Ok?
    ensures Advances(env, m, ExecRevokeSelf(env, m, key, s, signer, payer, now).value, now)
  {
    var a := m.w.accounts[key];
    assert m.w.accounts == m.w.accounts[key := a];
  }

  lemma TransferSteps(env: Env, m: Machine, key: Pubkey, spender: Option<Pubkey>, t: TransferArgs, cx: Context)
    requires InOrder(env, m.w) && ExecTransfer(env, m, key, spender, t, cx).Ok?
    ensures Advances(env, m, ExecTransfer(env, m, key, spender, t, cx).value, cx.now)
  {
    hide Charge, AccountOk, Debits, VerifyRoot, AccountsStepped, SessionsStepped, LamportsStepped, CeremonyOf, BodyOf,
      BySession, ByRoot, Move, CheckAccountPda, SessionInOrder;
    var a := m.w.accounts[key];
    var s := if spender.Some? then Some(SessionRef(spender.value, m.w.sessions[spender.value])) else None;
    var b := Balances(Balance(m.w, key), Balance(m.w, t.destination.key));
    assert AccountInOrder(env, m.w, key);
    AccountTag(a);
    ChargeMeans(env, a, key, s, cx, t);
    var r := Transfer(env, a, key, s, b, cx, t).value;
    if s.None? {
      RootTransferSteps(env, m, key, cx, t, r);
    } else {
      SessionTransferSteps(env, m, key, s.value, cx, t, r);
    }
    TransferLamports(env, m, key, spender, cx, t, r);
  }

  lemma RootTransferSteps(env: Env, m: Machine, key: Pubkey, cx: Context, t: TransferArgs, r: Transferred)
    requires key in m.w.accounts && m.w.accounts[key].frozenKind == 0
    requires ByRoot(env, m.w.accounts[key], r.account, key, cx, t)
    requires Debits(m.w.accounts[key], r.account, CapMint(t.mint), t.amount, cx.now)
    ensures var m' := TransferDone(env, m, key, None, t, cx.now, r);
            var e := TransferEvent(env, m, key, None, t, cx.now);
            AccountsStepped(env, m.w, m'.w, e) && SessionsStepped(env, m.w, m'.w, e)
  {
    hide VerifyRoot, ActionHash, Debits, PolicyRules.Lookup, CeremonyOf, TranscriptFits, Base64Url.Encode, TranscriptPreimage;
    CeremonyIsPresented(env, m.w.accounts[key], cx, t.root.value, key, RootTransfer(BodyOf(t)));
  }

  lemma SessionTransferSteps(env: Env, m: Machine, key: Pubkey, s: SessionRef, cx: Context, t: TransferArgs, r: Transferred)
    requires key in m.w.accounts && m.w.accounts[key].frozenKind == 0
    requires s.key in m.w.sessions && s.session == m.w.sessions[s.key] && r.session.Some?
    requires BySession(env, m.w.accounts[key], r.account, key, s, r.session.value, cx, t)
    requires Debits(m.w.accounts[key], r.account, CapMint(t.mint), t.amount, cx.now)
    ensures var m' := TransferDone(env, m, key, Some(s.key), t, cx.now, r);
            var e := TransferEvent(env, m, key, Some(s.key), t, cx.now);
            AccountsStepped(env, m.w, m'.w, e) && SessionsStepped(env, m.w, m'.w, e)
  {
    hide Debits, Spends, PolicyRules.Bit;
  }

  lemma TransferLamports(env: Env, m: Machine, key: Pubkey, spender: Option<Pubkey>, cx: Context, t: TransferArgs, r: Transferred)
    requires key in m.w.accounts
    requires Move(env, key, Balances(Balance(m.w, key), Balance(m.w, t.destination.key)), t) == Ok(r.balances)
    ensures LamportsStepped(env, m.w, TransferDone(env, m, key, spender, t, cx.now, r).w,
                            TransferEvent(env, m, key, spender, t, cx.now))
  {
    hide CheckTokens, CeremonyOf;
  }

  lemma AccountTag(a: Account)
    requires AccountOk(a)
    ensures a.frozenKind <= 1 && PolicyRules.PolicyOk(a.policy)
  {
    hide PolicyRules.PolicyOk, Honest.CeremonyReady;
  }

  lemma DepositSteps(env: Env, m: Machine, to: Pubkey, amount: U64, now: I64)
    requires ExecDeposit(m, to, amount, now).Ok?
    ensures Advances(env, m, ExecDeposit(m, to, amount, now).value, now)
  {
  }

  lemma WithdrawSteps(env: Env, m: Machine, from: Pubkey, amount: U64, now: I64)
    requires ExecWithdraw(m, from, amount, now).Ok?
    ensures Advances(env, m, ExecWithdraw(m, from, amount, now).value, now)
  {
  }

  lemma RootCallSteps(env: Env, m: Machine, call: Call, cx: Context)
    requires InOrder(env, m.w) && (call.CallRotate? || call.CallFreeze? || call.CallUnfreeze?)
    requires Exec(env, m, call, cx).Ok?
    ensures Advances(env, m, Exec(env, m, call, cx).value, cx.now)
  {
    hide VerifyRoot, ActionHash, AccountOk, Rotate, Freeze, Unfreeze, AccountChanged, RootOutcome, Advances;
    var a := m.w.accounts[call.key];
    assert AccountInOrder(env, m.w, call.key);
    AccountTag(a);
    match call
    case CallRotate(key, root) =>
      OutcomeOk(env, m, key, root, cx.now, RotateNonce, Rotated, Rotate(env, a, key, cx, root));
      RotateSteps(env, a, key, cx, root);
      RootOutcomeSteps(env, m, key, cx, root, RotateNonce, Rotated, Rotate(env, a, key, cx, root));
    case CallFreeze(key, root) =>
      OutcomeOk(env, m, key, root, cx.now, FreezeAccount, Froze, Freeze(env, a, key, cx, root));
      FreezeSteps(env, a, key, cx, root);
      RootOutcomeSteps(env, m, key, cx, root, FreezeAccount, Froze, Freeze(env, a, key, cx, root));
    case CallUnfreeze(key, root) =>
      OutcomeOk(env, m, key, root, cx.now, UnfreezeAccount, Unfroze, Unfreeze(env, a, key, cx, root));
      UnfreezeSteps(env, a, key, cx, root);
      RootOutcomeSteps(env, m, key, cx, root, UnfreezeAccount, Unfroze, Unfreeze(env, a, key, cx, root));
  }

  lemma OutcomeOk(env: Env, m: Machine, key: Pubkey, root: RootArgs, now: I64, action: Action, effect: Effect, r: Result<Account>)
    requires key in m.w.accounts && RootOutcome(env, m, key, root, now, action, effect, r).Ok?
    ensures r.Ok?
  {
    hide CeremonyOf;
  }

  /** Every accepted instruction appends one event and changes exactly what that event says. */
  lemma ExecSteps(env: Env, m: Machine, call: Call, cx: Context)
    requires InOrder(env, m.w) && Exec(env, m, call, cx).Ok?
    ensures Advances(env, m, Exec(env, m, call, cx).value, cx.now)
  {
    hide Advances, InOrder, RootOutcome, ExecCreate, GrantOutcome, ExecTransfer, ExecRevokeRoot, ExecRevokeSelf, ExecDeposit,
      ExecWithdraw, FindAddress, Rotate, Freeze, Unfreeze;
    match call
    case Create(args) => CreateSteps(env, m, args, cx.now);
    case CallRotate(_, _) => RootCallSteps(env, m, call, cx);
    case CallFreeze(_, _) => RootCallSteps(env, m, call, cx);
    case CallUnfreeze(_, _) => RootCallSteps(env, m, call, cx);
    case CallGrant(key, root, b) =>
      GrantSteps(env, m, key, root, b, cx, FindAddress(env, [SESSION_SEED, key, b.sessionPubkey]).value);
    case CallRevokeRoot(key, s, payer, root, b) => RevokeRootSteps(env, m, key, s, payer, root, b, cx);
    case CallRevokeSelf(key, s, signer, payer) => RevokeSelfSteps(env, m, key, s, signer, payer, cx.now);
    case CallTransfer(key, spender, t) => TransferSteps(env, m, key, spender, t, cx);
    case Deposit(to, amount) => DepositSteps(env, m, to, amount, cx.now);
    case Withdraw(from, amount) => WithdrawSteps(env, m, from, amount, cx.now);
  }
}
