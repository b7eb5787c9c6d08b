/**
  All accounts, sessions and lamport balances, and every instruction as one atomic step: an error
  leaves the world as it was. Each accepted step appends one event to a log, and `Stepped` states what
  the event changed; `ExecSteps` proves it for every instruction.
*/
module World {
  import opened Base
  import opened Wire
  import opened State
  import PolicyRules
  import RootVerify
  import opened Lifecycle
  import opened Sessions
  import opened Transfers
  import Base64Url
  import ClientDataJson

  datatype World = World(accounts: map<Pubkey, Account>, sessions: map<Pubkey, Session>, lamports: map<Pubkey, U64>)

  const GENESIS := World(map[], map[], map[])

  function Balance(w: World, key: Pubkey): U64 { if key in w.lamports then w.lamports[key] else 0 }

  // ---------------------------------------------------------------- events

  /** A consumed root ceremony: the challenge in its client data and what the program made of it. */
  datatype Ceremony = Ceremony(challenge: Bytes, transcript: Transcript, action: Action)

  datatype Effect =
    | Created(args: CreateArgs)
    | Rotated
    | Granted(session: Pubkey, isNew: bool)
    | Closed(session: Pubkey, last: Session, refundTo: Pubkey, rent: U64)
    | Froze
    | Unfroze
    | Moved(spender: Option<Pubkey>, mint: Pubkey, native: bool, destination: Pubkey, amount: U64)
    | Deposited(lamports: U64)
    | Withdrawn(lamports: U64)

  /** `account` is the smart account concerned, or for the last two effects any account of the cluster. */
  datatype Event = Event(account: Pubkey, time: I64, effect: Effect, ceremony: Option<Ceremony>)

  type Log = seq<Event>

  datatype Machine = Machine(w: World, log: Log)

  // ---------------------------------------------------------------- instructions

  datatype Call =
    | Create(create: CreateArgs)
    | CallRotate(key: Pubkey, root: RootArgs)
    | CallFreeze(key: Pubkey, root: RootArgs)
    | CallUnfreeze(key: Pubkey, root: RootArgs)
    | CallGrant(key: Pubkey, root: RootArgs, grant: GrantBody)
    | CallRevokeRoot(key: Pubkey, session: Pubkey, payer: Pubkey, root: RootArgs, revoke: RevokeBody)
    | CallRevokeSelf(key: Pubkey, session: Pubkey, signer: Pubkey, payer: Pubkey)
    | CallTransfer(key: Pubkey, spender: Option<Pubkey>, transfer: TransferArgs)
    | Deposit(to: Pubkey, amount: U64)
    | Withdraw(from: Pubkey, amount: U64)

  function PresentedChallenge(root: RootArgs): Bytes {
    match ClientDataJson.ParseStrict(root.clientDataJson)
    case Ok(cd) => cd.challenge
    case Err(_) => []
  }

  function CeremonyOf(env: Env, a: Account, key: Pubkey, root: RootArgs, action: Action): Ceremony {
    Ceremony(PresentedChallenge(root), RootVerify.CurrentTranscript(env, a, key, root.expiryTs, action), action)
  }

  function PutAccount(m: Machine, key: Pubkey, a: Account, e: Event): Machine {
    Machine(m.w.(accounts := m.w.accounts[key := a]), m.log + [e])
  }

  function ExecCreate(env: Env, m: Machine, args: CreateArgs, now: I64): Result<Machine> {
    match FindAddress(env, [ACCOUNT_SEED, args.ownerSeed])
    case None => Err(Framework)
    case Some(pda) =>
      if pda.key in m.w.accounts || pda.key in m.w.sessions then Err(Framework)
      else
        match CreateAccount(env, args, pda.bump)
        case Err(e) => Err(e)
        case Ok(a) => Ok(PutAccount(m, pda.key, a, Event(pda.key, now, Created(args), None)))
  }

  /** A root instruction that changes the account alone. */
  function RootOutcome(env: Env, m: Machine, key: Pubkey, root: RootArgs, now: I64, action: Action, effect: Effect,
                       r: Result<Account>): Result<Machine>
    requires key in m.w.accounts
  {
    match r
    case Err(e) => Err(e)
    case Ok(a) =>
      Ok(PutAccount(m, key, a, Event(key, now, effect, Some(CeremonyOf(env, m.w.accounts[key], key, root, action)))))
  }

  function ExecGrant(env: Env, m: Machine, key: Pubkey, root: RootArgs, b: GrantBody, cx: Context): Result<Machine> {
    if key !in m.w.accounts then Err(Framework)
    else
      match FindAddress(env, [SESSION_SEED, key, b.sessionPubkey])
      case None => Err(Framework)
      case Some(pda) =>
        if pda.key in m.w.accounts then Err(Framework)
        else GrantOutcome(env, m, key, root, b, cx, pda)
  }

  function PriorSession(w: World, s: Pubkey): Session { if s in w.sessions then w.sessions[s] else BLANK_SESSION }

  function GrantOutcome(env: Env, m: Machine, key: Pubkey, root: RootArgs, b: GrantBody, cx: Context, pda: Pda)
    : Result<Machine>
    requires key in m.w.accounts
  {
    var a := m.w.accounts[key];
    match Grant(env, a, key, PriorSession(m.w, pda.key), pda.bump, cx, root, b)
    case Err(e) => Err(e)
    case Ok(g) =>
      var e := Event(key, cx.now, Granted(pda.key, pda.key !in m.w.sessions),
                     Some(CeremonyOf(env, a, key, root, GrantSession(b))));
      Ok(Machine(m.w.(accounts := m.w.accounts[key := g.account], sessions := m.w.sessions[pda.key := g.session]),
                 m.log + [e]))
  }

  /** The framework's closing of an account: its lamports go to the payer. */
  function CloseSession(m: Machine, accounts: map<Pubkey, Account>, key: Pubkey, s: Pubkey, payer: Pubkey, now: I64,
                        ceremony: Option<Ceremony>): Result<Machine>
    requires s in m.w.sessions
  {
    var rent := Balance(m.w, s);
    if !CanRefund(m.w, s, payer) then Err(Framework)
    else
      Ok(Machine(World(accounts, m.w.sessions - {s}, m.w.lamports[s := 0][payer := Balance(m.w, payer) + rent]),
                 m.log + [Event(key, now, Closed(s, m.w.sessions[s], payer, rent), ceremony)]))
  }

  predicate CanRefund(w: World, s: Pubkey, payer: Pubkey) { payer != s && Balance(w, payer) + Balance(w, s) < U64_LIMIT }

  function ExecRevokeRoot(env: Env, m: Machine, key: Pubkey, s: Pubkey, payer: Pubkey, root: RootArgs, b: RevokeBody,
                          cx: Context): Result<Machine>
  {
    if key !in m.w.accounts || s !in m.w.sessions then Err(Framework)
    else
      var a := m.w.accounts[key];
      match RevokeByRoot(env, a, key, SessionRef(s, m.w.sessions[s]), payer, cx, root, b)
      case Err(e) => Err(e)
      case Ok(a') =>
        CloseSession(m, m.w.accounts[key := a'], key, s, payer, cx.now, Some(CeremonyOf(env, a, key, root, RevokeSession(b))))
  }

  function ExecRevokeSelf(env: Env, m: Machine, key: Pubkey, s: Pubkey, signer: Pubkey, payer: Pubkey, now: I64)
    : Result<Machine>
  {
    if key !in m.w.accounts || s !in m.w.sessions then Err(Framework)
    else
      match RevokeBySelf(env, m.w.accounts[key], key, SessionRef(s, m.w.sessions[s]), signer)
      case Fail(e) => Err(e)
      case Pass => CloseSession(m, m.w.accounts, key, s, payer, now, None)
  }

  function ExecTransfer(env: Env, m: Machine, key: Pubkey, spender: Option<Pubkey>, t: TransferArgs, cx: Context)
    : Result<Machine>
  {
    if key !in m.w.accounts || (spender.Some? && spender.value !in m.w.sessions) then Err(Framework)
    else
      var s := if spender.Some? then Some(SessionRef(spender.value, m.w.sessions[spender.value])) else None;
      var b := Balances(Balance(m.w, key), Balance(m.w, t.destination.key));
      match Transfer(env, m.w.accounts[key], key, s, b, cx, t)
      case Err(e) => Err(e)
      case Ok(r) => Ok(TransferDone(env, m, key, spender, t, cx.now, r))
  }

  function TransferEvent(env: Env, m: Machine, key: Pubkey, spender: Option<Pubkey>, t: TransferArgs, now: I64): Event
    requires key in m.w.accounts
  {
    var ceremony :=
      if t.root.Some? then Some(CeremonyOf(env, m.w.accounts[key], key, t.root.value, RootTransfer(BodyOf(t)))) else None;
    Event(key, now, Moved(spender, CapMint(t.mint), t.mint.None?, t.destination.key, t.amount), ceremony)
  }

  function TransferDone(env: Env, m: Machine, key: Pubkey, spender: Option<Pubkey>, t: TransferArgs, now: I64, r: Transferred)
    : Machine
    requires key in m.w.accounts
  {
    Machine(
      World(m.w.accounts[key := r.account],
            if spender.Some? && r.session.Some? then m.w.sessions[spender.value := r.session.value] else m.w.sessions,
            if t.mint.None? then m.w.lamports[key := r.balances.src][t.destination.key := r.balances.dst] else m.w.lamports),
      m.log + [TransferEvent(env, m, key, spender, t, now)])
  }

  /** Anyone may pay in; only what the program does not own may be paid out by others. */
  function ExecDeposit(m: Machine, to: Pubkey, amount: U64, now: I64): Result<Machine> {
    if Balance(m.w, to) + amount >= U64_LIMIT then Err(Framework)
    else
      Ok(Machine(m.w.(lamports := m.w.lamports[to := Balance(m.w, to) + amount]),
                 m.log + [Event(to, now, Deposited(amount), None)]))
  }

  function ExecWithdraw(m: Machine, from: Pubkey, amount: U64, now: I64): Result<Machine> {
    if from in m.w.accounts || from in m.w.sessions || Balance(m.w, from) < amount then Err(Framework)
    else
      Ok(Machine(m.w.(lamports := m.w.lamports[from := Balance(m.w, from) - amount]),
                 m.log + [Event(from, now, Withdrawn(amount), None)]))
  }

  function Exec(env: Env, m: Machine, call: Call, cx: Context): Result<Machine> {
    match call
    case Create(args) => ExecCreate(env, m, args, cx.now)
    case CallRotate(key, root) =>
      if key !in m.w.accounts then Err(Framework)
      else RootOutcome(env, m, key, root, cx.now, RotateNonce, Rotated, Rotate(env, m.w.accounts[key], key, cx, root))
    case CallFreeze(key, root) =>
      if key !in m.w.accounts then Err(Framework)
      else RootOutcome(env, m, key, root, cx.now, FreezeAccount, Froze, Freeze(env, m.w.accounts[key], key, cx, root))
    case CallUnfreeze(key, root) =>
      if key !in m.w.accounts then Err(Framework)
      else RootOutcome(env, m, key, root, cx.now, UnfreezeAccount, Unfroze, Unfreeze(env, m.w.accounts[key], key, cx, root))
    case CallGrant(key, root, b) => ExecGrant(env, m, key, root, b, cx)
    case CallRevokeRoot(key, s, payer, root, b) => ExecRevokeRoot(env, m, key, s, payer, root, b, cx)
    case CallRevokeSelf(key, s, signer, payer) => ExecRevokeSelf(env, m, key, s, signer, payer, cx.now)
    case CallTransfer(key, spender, t) => ExecTransfer(env, m, key, spender, t, cx)
    case Deposit(to, amount) => ExecDeposit(m, to, amount, cx.now)
    case Withdraw(from, amount) => ExecWithdraw(m, from, amount, cx.now)
  }

  /** The step an instruction makes: on an error nothing happens. */
  function Step(env: Env, m: Machine, call: Call, cx: Context): Machine {
    match Exec(env, m, call, cx)
    case Ok(m') => m'
    case Err(_) => m
  }

  datatype Timed = Timed(call: Call, cx: Context)

  /** The machine after a run from nothing. */
  function Run(env: Env, run: seq<Timed>): Machine {
    if run == [] then Machine(GENESIS, [])
    else Step(env, Run(env, run[..|run| - 1]), run[|run| - 1].call, run[|run| - 1].cx)
  }

  // ---------------------------------------------------------------- what an accepted step changes

  /** The effect is the one this action stands for. */
  ghost predicate ActionMatches(action: Action, effect: Effect) {
    match effect
    case Rotated => action == RotateNonce
    case Granted(_, _) => action.GrantSession?
    case Closed(_, last, refundTo, _) =>
      action.RevokeSession? && action.revoke.sessionPubkey == last.pubkey && action.revoke.refundTo == refundTo
    case Froze => action == FreezeAccount
    case Unfroze => action == UnfreezeAccount
    case Moved(spender, mint, native, destination, amount) =>
      && spender.None? && action.RootTransfer? && action.transfer.native == native
      && (native ==> action.transfer.mint == DEFAULT_KEY)
      && (if native then mint == NATIVE_MINT else mint == action.transfer.mint)
      && action.transfer.destination == destination && action.transfer.amount == amount
    case _ => false
  }

  /** The ceremony was made for this account's state and for the action that was executed. */
  ghost predicate CeremonyFits(env: Env, a: Account, e: Event, c: Ceremony) {
    && RootVerify.TranscriptFits(env, a, e.account, c.transcript.expiryTs, c.action, c.transcript)
    && c.challenge == Base64Url.Encode(env.keccak(TranscriptPreimage(c.transcript))) && ActionMatches(c.action, e.effect)
    && e.time <= c.transcript.expiryTs <= e.time + RootVerify.MAX_ROOT_EXPIRY_SECS
  }

  ghost predicate UnderThreshold(p: Policy, mint: Pubkey, amount: U64) {
    PolicyRules.Lookup(p.largeThreshold, mint).Some? && amount <= PolicyRules.Lookup(p.largeThreshold, mint).value.perTx
  }

  ghost predicate AccountChanged(a: Account, a': Account, e: Event) {
    match e.effect
    case Froze =>
      a.frozenKind == 0 && a' == SetFrozen(a, FrozenByRoot).(frozenAt := e.time, rootNonce := a'.rootNonce)
    case Unfroze =>
      && a.frozenKind == 1 && e.time >= a.frozenAt + a.policy.timelockSecs
      && a' == SetFrozen(a, NotFrozen).(frozenAt := 0, rootNonce := a'.rootNonce)
    case Moved(spender, mint, native, _, amount) =>
      && a.frozenKind == 0 && Debits(a, a', mint, amount, e.time) && (native ==> mint == NATIVE_MINT)
      && (spender.None? ==> UnderThreshold(a.policy, mint, amount))
      && (spender.Some? <==> e.ceremony.None?)
    case Granted(_, _) => a.frozenKind == 0 && e.ceremony.Some? && a' == a.(rootNonce := a'.rootNonce)
    case _ => a' == a.(rootNonce := a'.rootNonce)
  }

  /** One nonce per ceremony, and none otherwise. */
  ghost predicate NonceChanged(env: Env, a: Account, a': Account, e: Event) {
    && a'.rootNonce == a.rootNonce + (if e.ceremony.Some? then 1 else 0)
    && (e.ceremony.Some? ==> CeremonyFits(env, a, e, e.ceremony.value))
  }

  ghost predicate NewAccountOk(a: Account) {
    AccountOk(a) && Untouched(a)
  }

  ghost predicate AccountsStepped(env: Env, w: World, w': World, e: Event) {
    match e.effect
    case Created(args) =>
      && e.account !in w.accounts && e.account !in w.sessions && e.ceremony.None?
      && e.account in w'.accounts && NewAccountOk(w'.accounts[e.account])
      && SetupAs(env, w'.accounts[e.account], args) && CheckAccountPda(env, e.account, w'.accounts[e.account]).Pass?
      && w'.accounts == w.accounts[e.account := w'.accounts[e.account]]
    case Deposited(_) => w'.accounts == w.accounts && e.ceremony.None?
    case Withdrawn(_) => w'.accounts == w.accounts && e.ceremony.None?
    case _ =>
      && e.account in w.accounts && e.account in w'.accounts
      && w'.accounts == w.accounts[e.account := w'.accounts[e.account]]
      && AccountChanged(w.accounts[e.account], w'.accounts[e.account], e)
      && NonceChanged(env, w.accounts[e.account], w'.accounts[e.account], e)
  }

  /** A granted session is in order and is the prior one with the signed limits overlaid: its spending and held slots stay. */
  ghost predicate SessionGranted(s: Session, s': Session, a: Account, key: Pubkey, now: I64, b: GrantBody) {
    && SessionOk(s', key, a.policy) && s'.generationAtGrant == a.generation
    && s'.pubkey == b.sessionPubkey && s'.opsMask == b.opsMask && s'.displayLabel == b.displayLabel
    && now < s'.expiryTs == b.expiryTs <= now + a.policy.maxSessionLifeSecs
    && |b.caps| <= |b.lifetimeCap| && forall mint :: OverlaidAt(s, s', b.caps, b.lifetimeCap, mint)
  }

  ghost predicate SessionsStepped(env: Env, w: World, w': World, e: Event) {
    match e.effect
    case Granted(s, isNew) =>
      && e.account in w.accounts && s !in w.accounts && (isNew <==> s !in w.sessions) && s in w'.sessions
      && w'.sessions == w.sessions[s := w'.sessions[s]]
      && (!isNew ==> w.sessions[s].account == e.account)
      && CheckSessionPda(env, SessionRef(s, w'.sessions[s]), e.account).Pass?
      && e.ceremony.Some? && e.ceremony.value.action.GrantSession?
      && SessionGranted(PriorSession(w, s), w'.sessions[s], w.accounts[e.account], e.account, e.time,
                        e.ceremony.value.action.grant)
    case Closed(s, last, _, _) =>
      s in w.sessions && last == w.sessions[s] && last.account == e.account && w'.sessions == w.sessions - {s}
    case Moved(spender, mint, _, _, amount) =>
      if spender.None? then w'.sessions == w.sessions
      else
        && spender.value in w.sessions && spender.value in w'.sessions && w.sessions[spender.value].account == e.account
        && e.account in w.accounts && w.sessions[spender.value].generationAtGrant == w.accounts[e.account].generation
        && e.time < w.sessions[spender.value].expiryTs && PolicyRules.Bit(w.sessions[spender.value].opsMask, 0)
        && w'.sessions == w.sessions[spender.value := w'.sessions[spender.value]]
        && Spends(w.sessions[spender.value], w'.sessions[spender.value], mint, amount)
    case _ => w'.sessions == w.sessions
  }

  ghost predicate LamportsStepped(env: Env, w: World, w': World, e: Event) {
    match e.effect
    case Moved(_, _, native, destination, amount) =>
      if !native then w'.lamports == w.lamports
      else
        && destination != e.account && Balance(w, e.account) - amount >= env.rentFloor
        && Balance(w, destination) + amount < U64_LIMIT
        && w'.lamports == w.lamports[e.account := Balance(w, e.account) - amount]
                                    [destination := Balance(w, destination) + amount]
    case Closed(s, _, refundTo, rent) =>
      && CanRefund(w, s, refundTo) && rent == Balance(w, s)
      && w'.lamports == w.lamports[s := 0][refundTo := Balance(w, refundTo) + rent]
    case Deposited(amount) =>
      && Balance(w, e.account) + amount < U64_LIMIT
      && w'.lamports == w.lamports[e.account := Balance(w, e.account) + amount]
    case Withdrawn(amount) =>
      && e.account !in w.accounts && e.account !in w.sessions && amount <= Balance(w, e.account)
      && w'.lamports == w.lamports[e.account := Balance(w, e.account) - amount]
    case _ => w'.lamports == w.lamports
  }

  ghost predicate Stepped(env: Env, w: World, w': World, e: Event) {
    AccountsStepped(env, w, w', e) && SessionsStepped(env, w, w', e) && LamportsStepped(env, w, w', e)
  }

  /** Everything is in order and at its derived address, no address is used twice, and every session has its account. */
  ghost predicate InOrder(env: Env, w: World) {
    && (forall key :: key in w.accounts ==> AccountInOrder(env, w, key))
    && (forall s :: s in w.sessions ==> SessionInOrder(env, w, s))
  }

  ghost predicate AccountInOrder(env: Env, w: World, key: Pubkey)
    requires key in w.accounts
  {
    AccountOk(w.accounts[key]) && key !in w.sessions && CheckAccountPda(env, key, w.accounts[key]).Pass?
  }

  ghost predicate SessionInOrder(env: Env, w: World, s: Pubkey)
    requires s in w.sessions
  {
    var session := w.sessions[s];
    && session.account in w.accounts && SessionOk(session, session.account, w.accounts[session.account].policy)
    && CheckSessionPda(env, SessionRef(s, session), session.account).Pass?
  }
}
