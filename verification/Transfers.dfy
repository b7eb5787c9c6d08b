/**
  Moving value out of the vault, under a session or under the root: authorise, charge the account-wide
  bucket, charge the session's lifetime, move. `ChargeMeans` says what an accepted
  transfer has been checked against and has changed, `SessionTransferDecides` when one is accepted.
*/
module Transfers {
  import opened Base
  import opened Buckets
  import Wire
  import opened State
  import PolicyRules
  import opened RootVerify
  import Lifecycle
  import opened Sessions

  /** The wrapped-SOL mint, under which native SOL is capped. */
  const NATIVE_MINT: Pubkey :=
    [0x06, 0x9B, 0x88, 0x57, 0xFE, 0xAB, 0x81, 0x84, 0xFB, 0x68, 0x7F, 0x63, 0x46, 0x18, 0xC0, 0x35,
     0xDA, 0xC4, 0x39, 0xDC, 0x1A, 0xEB, 0x3B, 0x55, 0x98, 0xA0, 0xF0, 0x00, 0x00, 0x00, 0x00, 0x01]

  const SPL_TOKEN_ID: Pubkey :=
    [0x06, 0xDD, 0xF6, 0xE1, 0xD7, 0x65, 0xA1, 0x93, 0xD9, 0xCB, 0xE1, 0x46, 0xCE, 0xEB, 0x79, 0xAC,
     0x1C, 0xB4, 0x85, 0xED, 0x5F, 0x5B, 0x37, 0x91, 0x3A, 0x8C, 0xF5, 0x85, 0x7E, 0xFF, 0x00, 0xA9]

  const TOKEN_ACCOUNT_LEN: nat := 165
  const TOKEN_STATE_OFFSET: nat := 108
  const TOKEN_STATE_INITIALIZED: Byte := 1

  /** An account as the runtime passes it in. */
  datatype AccountInfo = AccountInfo(key: Pubkey, owner: Pubkey, data: Bytes)

  /** The arguments and accounts of a transfer; `tokenTransferOk` is the verdict of the token program. */
  datatype TransferArgs = TransferArgs(
    root: Option<RootArgs>, mint: Option<Pubkey>, amount: U64, signer: Pubkey, hasSysvar: bool,
    destination: AccountInfo, source: Option<AccountInfo>, tokenProgram: Option<Pubkey>, tokenTransferOk: bool)

  function CapMint(mint: Option<Pubkey>): Pubkey { if mint.Some? then mint.value else NATIVE_MINT }

  /** What the root signs for a transfer: built from the accounts that were passed. */
  function BodyOf(t: TransferArgs): Wire.TransferBody {
    Wire.TransferBody(t.mint.None?, if t.mint.Some? then t.mint.value else DEFAULT_KEY, t.destination.key, t.amount)
  }

  // ---------------------------------------------------------------- authorisation

  /** Who, then when, then what. */
  function AuthorizeSession(env: Env, s: SessionRef, signer: Pubkey, key: Pubkey, generation: U64, now: I64): Outcome {
    match CheckSessionPda(env, s, key)
    case Fail(e) => Fail(e)
    case Pass =>
      if signer != s.session.pubkey then Fail(Unauthorized)
      else if s.session.generationAtGrant != generation then Fail(Unauthorized)
      else if now >= s.session.expiryTs then Fail(SessionExpired)
      else Require(s.session.opsMask % 2 == 1, OpNotAllowed)
  }

  /** The session with the transfer counted against its lifetime cap. */
  function SpendLifetime(s: Session, mint: Pubkey, amount: U64): Result<Session> {
    match FindCap(s.caps, mint)
    case None => Err(CapExceeded)
    case Some(slot) =>
      if amount > s.caps[slot].perTx then Err(CapExceeded)
      else if s.lifetimeSpent[slot] + amount >= U64_LIMIT then Err(Overflow)
      else if s.lifetimeSpent[slot] + amount > s.lifetimeCap[slot] then Err(CapExceeded)
      else Ok(s.(lifetimeSpent := s.lifetimeSpent[slot := s.lifetimeSpent[slot] + amount]))
  }

  function AuthorizedByRoot(env: Env, a: Account, key: Pubkey, cx: Context, root: RootArgs, t: TransferArgs)
    : Result<Account>
  {
    var action := Wire.RootTransfer(BodyOf(t));
    :- Require(t.hasSysvar, BadInstructionLayout);
    var a' :- VerifyRoot(env, a, cx, root, key, ActionHash(env, action));
    :- CheckThreshold(a'.policy, CapMint(t.mint), t.amount);
    Ok(a')
  }

  function CheckThreshold(p: Policy, mint: Pubkey, amount: U64): Outcome {
    match FindCap(p.largeThreshold, mint)
    case None => Fail(CapExceeded)
    case Some(k) => Require(amount <= p.largeThreshold[k].perTx, CapExceeded)
  }

  function AuthorizedBySession(env: Env, a: Account, key: Pubkey, s: SessionRef, cx: Context, t: TransferArgs)
    : Result<Session>
  {
    var entitled := AuthorizeSession(env, s, t.signer, key, a.generation, cx.now);
    :- entitled;
    SpendLifetime(s.session, CapMint(t.mint), t.amount)
  }

  // ---------------------------------------------------------------- the charge

  /** The one place every outflow converges. */
  function ChargeAccount(a: Account, mint: Pubkey, amount: U64, now: I64): Result<Account> {
    match FindCap(a.policy.caps, mint)
    case None => Err(CapExceeded)
    case Some(k) =>
      match Debited(a.buckets[k], a.policy.caps[k], amount, now)
      case Err(e) => Err(e)
      case Ok(b) => Ok(a.(buckets := a.buckets[k := b]))
  }

  /** The account and, on the session path, the session after authorisation and both charges. */
  datatype Charged = Charged(account: Account, session: Option<Session>)

  function Charge(env: Env, a: Account, key: Pubkey, s: Option<SessionRef>, cx: Context, t: TransferArgs)
    : Result<Charged>
  {
    if t.root.Some? == s.Some? then Err(BadInstructionLayout)
    else
      match Lifecycle.CheckAccountPda(env, key, a)
      case Fail(e) => Err(e)
      case Pass =>
        match Lifecycle.CheckNotFrozen(a, Frozen)
        case Fail(e) => Err(e)
        case Pass =>
          if t.root.Some? then ChargeByRoot(env, a, key, cx, t.root.value, t)
          else ChargeBySession(env, a, key, s.value, cx, t)
  }

  function ChargeByRoot(env: Env, a: Account, key: Pubkey, cx: Context, root: RootArgs, t: TransferArgs)
    : Result<Charged>
  {
    var a1 :- AuthorizedByRoot(env, a, key, cx, root, t);
    var a2 :- ChargeAccount(a1, CapMint(t.mint), t.amount, cx.now);
    Ok(Charged(a2, None))
  }

  function ChargeBySession(env: Env, a: Account, key: Pubkey, s: SessionRef, cx: Context, t: TransferArgs)
    : Result<Charged>
  {
    var s' :- AuthorizedBySession(env, a, key, s, cx, t);
    var a' :- ChargeAccount(a, CapMint(t.mint), t.amount, cx.now);
    Ok(Charged(a', Some(s')))
  }

  // ---------------------------------------------------------------- moving the value

  datatype Balances = Balances(src: U64, dst: U64)

  /** Moves lamports between two different accounts; the source keeps its rent floor. */
  function MoveLamports(b: Balances, amount: U64, floor: U64): Result<Balances> {
    if b.src < amount then Err(Overflow)
    else if b.src - amount < floor then Err(RentFloor)
    else if b.dst + amount >= U64_LIMIT then Err(Overflow)
    else Ok(Balances(b.src - amount, b.dst + amount))
  }

  datatype TokenAccount = TokenAccount(mint: Pubkey, owner: Pubkey)

  function ParseTokenAccount(info: AccountInfo): Result<TokenAccount> {
    if info.owner != SPL_TOKEN_ID then Err(InvalidAccountData)
    else if |info.data| != TOKEN_ACCOUNT_LEN then Err(InvalidAccountData)
    else if info.data[TOKEN_STATE_OFFSET] != TOKEN_STATE_INITIALIZED then Err(InvalidAccountData)
    else Ok(TokenAccount(info.data[..32], info.data[32..64]))
  }

  /** The checks around the token program's own transfer. */
  function CheckTokens(key: Pubkey, mint: Pubkey, t: TransferArgs): Outcome {
    if t.tokenProgram.None? || t.source.None? then Fail(BadInstructionLayout)
    else if t.tokenProgram.value != SPL_TOKEN_ID then Fail(InvalidAccountData)
    else
      match ParseTokenAccount(t.source.value)
      case Err(e) => Fail(e)
      case Ok(src) =>
        if src.mint != mint || src.owner != key then Fail(InvalidAccountData)
        else
          match ParseTokenAccount(t.destination)
          case Err(e) => Fail(e)
          case Ok(dst) =>
            if dst.mint != mint then Fail(InvalidAccountData)
            else if dst.owner == key then Fail(VaultDestination)
            else if t.destination.key == t.source.value.key then Fail(VaultDestination)
            else Require(t.tokenTransferOk, Framework)
  }

  /** The lamport balances after the value has moved; a token transfer moves none. */
  function Move(env: Env, key: Pubkey, b: Balances, t: TransferArgs): Result<Balances> {
    match t.mint
    case None =>
      if t.destination.key == key then Err(InvalidAccountData) else MoveLamports(b, t.amount, env.rentFloor)
    case Some(mint) =>
      match CheckTokens(key, mint, t)
      case Fail(e) => Err(e)
      case Pass => Ok(b)
  }

  datatype Transferred = Transferred(account: Account, session: Option<Session>, balances: Balances)

  function Transfer(env: Env, a: Account, key: Pubkey, s: Option<SessionRef>, b: Balances, cx: Context, t: TransferArgs)
    : Result<Transferred>
  {
    var c :- Charge(env, a, key, s, cx, t);
    var b' :- Move(env, key, b, t);
    Ok(Transferred(c.account, c.session, b'))
  }

  // ---------------------------------------------------------------- what a transfer has been checked against

  /** The account-wide limiter of a mint accepted the amount, and its bucket is all that changed. */
  ghost predicate Debits(a: Account, a': Account, mint: Pubkey, amount: U64, now: I64) {
    var k := FindCap(a.policy.caps, mint);
    && k.Some?
    && Debited(a.buckets[k.value], a.policy.caps[k.value], amount, now).Ok?
    && a' == a.(buckets := a.buckets[k.value := Debited(a.buckets[k.value], a.policy.caps[k.value], amount, now).value],
                rootNonce := a'.rootNonce)
  }

  /** A session has been charged: only its spending on this mint changed, within its cap. */
  ghost predicate Spends(s: Session, s': Session, mint: Pubkey, amount: U64) {
    && s' == s.(lifetimeSpent := s'.lifetimeSpent)
    && FindCap(s.caps, mint).Some?
    && amount <= s.caps[FindCap(s.caps, mint).value].perTx
    && SpentOf(s', mint) == SpentOf(s, mint) + amount <= LifetimeOf(s, mint)
    && forall k: nat :: k < 8 && Some(k) != FindCap(s.caps, mint) ==> s'.lifetimeSpent[k] == s.lifetimeSpent[k]
  }

  ghost predicate ByRoot(env: Env, a: Account, a': Account, key: Pubkey, cx: Context, t: TransferArgs) {
    && t.root.Some? && VerifyRoot(env, a, cx, t.root.value, key, ActionHash(env, Wire.RootTransfer(BodyOf(t)))).Ok?
    && PolicyRules.Lookup(a.policy.largeThreshold, CapMint(t.mint)).Some?
    && t.amount <= PolicyRules.Lookup(a.policy.largeThreshold, CapMint(t.mint)).value.perTx
    && a'.rootNonce == a.rootNonce + 1
  }

  ghost predicate BySession(env: Env, a: Account, a': Account, key: Pubkey, s: SessionRef, s': Session, cx: Context,
                            t: TransferArgs) {
    && t.root.None? && a'.rootNonce == a.rootNonce
    && s.session.account == key && t.signer == s.session.pubkey && s.session.generationAtGrant == a.generation
    && cx.now < s.session.expiryTs && PolicyRules.Bit(s.session.opsMask, 0)
    && Spends(s.session, s', CapMint(t.mint), t.amount)
  }

  /**
    An accepted transfer was authorised by exactly one of the root and a live session, of an account that
    is not frozen, and was charged to the one bucket of its mint.
  */
  lemma ChargeMeans(env: Env, a: Account, key: Pubkey, s: Option<SessionRef>, cx: Context, t: TransferArgs)
    requires a.frozenKind <= 1 && Charge(env, a, key, s, cx, t).Ok?
    ensures a.frozenKind == 0
    ensures Debits(a, Charge(env, a, key, s, cx, t).value.account, CapMint(t.mint), t.amount, cx.now)
    ensures s.None? ==> ByRoot(env, a, Charge(env, a, key, s, cx, t).value.account, key, cx, t)
                        && Charge(env, a, key, s, cx, t).value.session.None?
    ensures s.Some? ==> Charge(env, a, key, s, cx, t).value.session.Some?
                        && BySession(env, a, Charge(env, a, key, s, cx, t).value.account, key, s.value,
                                     Charge(env, a, key, s, cx, t).value.session.value, cx, t)
  {
    hide VerifyRoot, ActionHash, Debited, FindCap, AuthorizedByRoot, AuthorizedBySession, ByRoot, BySession;
    if s.None? {
      RootMeans(env, a, key, cx, t.root.value, t);
    } else {
      SessionMeans(env, a, key, s.value, cx, t);
    }
  }

  lemma RootMeans(env: Env, a: Account, key: Pubkey, cx: Context, root: RootArgs, t: TransferArgs)
    requires t.root == Some(root) && ChargeByRoot(env, a, key, cx, root, t).Ok?
    ensures var c := ChargeByRoot(env, a, key, cx, root, t).value;
            && c.session.None? && ByRoot(env, a, c.account, key, cx, t)
            && Debits(a, c.account, CapMint(t.mint), t.amount, cx.now)
  {
    hide VerifyRoot, ActionHash, Debited, FindCap;
    VerifiedNonce(env, a, cx, root, key, Wire.RootTransfer(BodyOf(t)));
  }

  lemma SessionMeans(env: Env, a: Account, key: Pubkey, s: SessionRef, cx: Context, t: TransferArgs)
    requires t.root.None? && ChargeBySession(env, a, key, s, cx, t).Ok?
    ensures var c := ChargeBySession(env, a, key, s, cx, t).value;
            && c.session.Some? && BySession(env, a, c.account, key, s, c.session.value, cx, t)
            && Debits(a, c.account, CapMint(t.mint), t.amount, cx.now)
  {
    hide Debited, FindCap;
  }

  /** Charging a session keeps its table in order. */
  lemma SpendKeepsOrder(s: Session, s': Session, key: Pubkey, p: Policy, mint: Pubkey, amount: U64)
    requires SessionOk(s, key, p) && Spends(s, s', mint, amount)
    ensures SessionOk(s', key, p)
  {
    hide PolicyRules.SubMask, UnderCeiling;
    var n: nat :| TableOfSize(s, p, n);
    FindInPacked(s, n, mint);
    hide FindCap;
    forall k: nat | k < n ensures SlotGranted(s', p, k) { assert SlotGranted(s, p, k); }
    assert Packed(s', n);
    assert TableOfSize(s', p, n);
  }

  /** An initialised account of the token program. */
  ghost predicate IsTokenAccount(info: AccountInfo, mint: Pubkey, owner: Pubkey) {
    && info.owner == SPL_TOKEN_ID && |info.data| == TOKEN_ACCOUNT_LEN && info.data[TOKEN_STATE_OFFSET] == TOKEN_STATE_INITIALIZED
    && info.data[..32] == mint && info.data[32..64] == owner
  }

  /** A token transfer goes from a token account of the vault to one of somebody else, of the same mint. */
  lemma TokensLeaveTheVault(key: Pubkey, mint: Pubkey, t: TransferArgs)
    ensures CheckTokens(key, mint, t).Pass? <==>
              && t.tokenProgram == Some(SPL_TOKEN_ID) && t.source.Some? && t.tokenTransferOk
              && IsTokenAccount(t.source.value, mint, key)
              && (exists owner :: IsTokenAccount(t.destination, mint, owner) && owner != key)
              && t.destination.key != t.source.value.key
  {
    if CheckTokens(key, mint, t).Pass? {
      var owner: Pubkey := t.destination.data[32..64];
      assert IsTokenAccount(t.destination, mint, owner);
    }
  }

  /** What a refusal on the way to the vault is called: the first condition that fails. */
  ghost predicate SessionFault(env: Env, a: Account, key: Pubkey, s: SessionRef, cx: Context, t: TransferArgs, e: Error) {
    var mint := CapMint(t.mint);
    if CheckSessionPda(env, s, key).Fail? || t.signer != s.session.pubkey || s.session.generationAtGrant != a.generation
    then e == Unauthorized
    else if cx.now >= s.session.expiryTs then e == SessionExpired
    else if !PolicyRules.Bit(s.session.opsMask, 0) then e == OpNotAllowed
    else if PolicyRules.Lookup(s.session.caps, mint).None? || t.amount > PolicyRules.Lookup(s.session.caps, mint).value.perTx
    then e == CapExceeded
    else if SpentOf(s.session, mint) + t.amount >= U64_LIMIT then e == Overflow
    else if SpentOf(s.session, mint) + t.amount > LifetimeOf(s.session, mint) then e == CapExceeded
    else ChargeAccount(a, mint, t.amount, cx.now) == Err(e)
  }

  ghost predicate RootFault(env: Env, a: Account, key: Pubkey, cx: Context, t: TransferArgs, root: RootArgs, e: Error) {
    var mint, r := CapMint(t.mint), VerifyRoot(env, a, cx, root, key, ActionHash(env, Wire.RootTransfer(BodyOf(t))));
    if !t.hasSysvar then e == BadInstructionLayout
    else if r.Err? then e == r.error
    else if PolicyRules.Lookup(a.policy.largeThreshold, mint).None?
         || t.amount > PolicyRules.Lookup(a.policy.largeThreshold, mint).value.perTx
    then e == CapExceeded
    else ChargeAccount(r.value, mint, t.amount, cx.now) == Err(e)
  }

  lemma RefusalIsNamed(env: Env, a: Account, key: Pubkey, s: Option<SessionRef>, cx: Context, t: TransferArgs)
    requires a.frozenKind <= 1 && Charge(env, a, key, s, cx, t).Err?
    ensures var e := Charge(env, a, key, s, cx, t).error;
            if t.root.Some? == s.Some? then e == BadInstructionLayout
            else if Lifecycle.CheckAccountPda(env, key, a).Fail? then e == Unauthorized
            else if a.frozenKind == 1 then e == Frozen
            else if s.Some? then SessionFault(env, a, key, s.value, cx, t, e)
            else RootFault(env, a, key, cx, t, t.root.value, e)
  {
    hide Buckets.FindCap, ChargeAccount, VerifyRoot, ActionHash, BodyOf;
    if t.root.Some? && VerifyRoot(env, a, cx, t.root.value, key, ActionHash(env, Wire.RootTransfer(BodyOf(t)))).Ok? {
      VerifiedNonce(env, a, cx, t.root.value, key, Wire.RootTransfer(BodyOf(t)));
    }
  }

  /** And what a refusal of the vault itself is called. */
  lemma MoveRefusalIsNamed(env: Env, key: Pubkey, b: Balances, t: TransferArgs)
    requires t.mint.None? && Move(env, key, b, t).Err?
    ensures Move(env, key, b, t).error
         == if t.destination.key == key then InvalidAccountData
            else if t.amount > b.src then Overflow
            else if b.src - t.amount < env.rentFloor then RentFloor else Overflow
  {
  }

  /** Everything a session transfer needs of the session. */
  ghost predicate SessionMay(env: Env, a: Account, key: Pubkey, s: SessionRef, cx: Context, t: TransferArgs) {
    var mint := CapMint(t.mint);
    && CheckSessionPda(env, s, key).Pass? && t.signer == s.session.pubkey && s.session.generationAtGrant == a.generation
    && cx.now < s.session.expiryTs && PolicyRules.Bit(s.session.opsMask, 0)
    && PolicyRules.Lookup(s.session.caps, mint).Some? && t.amount <= PolicyRules.Lookup(s.session.caps, mint).value.perTx
    && SpentOf(s.session, mint) + t.amount <= LifetimeOf(s.session, mint)
  }

  /** A session may transfer exactly within its own limits and the account's limiter, and nothing else refuses it. */
  lemma SessionTransferDecides(env: Env, a: Account, key: Pubkey, s: SessionRef, cx: Context, t: TransferArgs)
    requires t.root.None? && a.frozenKind == 0 && Lifecycle.CheckAccountPda(env, key, a).Pass?
    ensures Charge(env, a, key, Some(s), cx, t).Ok? <==>
              SessionMay(env, a, key, s, cx, t) && ChargeAccount(a, CapMint(t.mint), t.amount, cx.now).Ok?
  {
    hide FindCap, ChargeAccount, CheckSessionPda, Lifecycle.CheckAccountPda;
  }
}
