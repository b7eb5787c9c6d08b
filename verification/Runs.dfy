/**
  What every run keeps. Here: the world stays in order, so every stored policy is ordered, every session
  is bounded by it, and no reachable account is ever frozen by a guardian. The other theorems about runs
  build on this one.
*/
module Runs {
  import opened Base
  import Buckets
  import Wire
  import opened State
  import opened PolicyRules
  import opened Lifecycle
  import opened Sessions
  import Transfers
  import opened World
  import opened Steps
  import Honest

  /** Nothing but nonce, freeze and buckets ever changes after creation. */
  ghost predicate SameSetup(a: Account, a': Account) {
    a' == a.(rootNonce := a'.rootNonce, frozenKind := a'.frozenKind, frozenGuardianIdx := a'.frozenGuardianIdx,
             frozenUntil := a'.frozenUntil, frozenAt := a'.frozenAt, buckets := a'.buckets)
  }

  lemma ChangeKeepsSetup(a: Account, a': Account, e: Event)
    requires AccountChanged(a, a', e) && a.frozenKind <= 1
    ensures SameSetup(a, a') && a'.frozenKind <= 1
  {
    hide Buckets.Debited, Buckets.FindCap, UnderThreshold;
  }

  lemma SetupKeepsOrder(env: Env, key: Pubkey, a: Account, a': Account)
    requires AccountOk(a) && SameSetup(a, a') && a'.frozenKind <= 1
    ensures AccountOk(a')
    ensures CheckAccountPda(env, key, a).Pass? ==> CheckAccountPda(env, key, a').Pass?
  {
    hide PolicyOk, Honest.IsPlain;
  }

  /** The account at `key` before and after a step, if it existed before. */
  lemma AccountAfter(env: Env, w: World, w': World, e: Event, key: Pubkey)
    requires InOrder(env, w) && AccountsStepped(env, w, w', e) && key in w.accounts
    ensures key in w'.accounts && SameSetup(w.accounts[key], w'.accounts[key]) && w'.accounts[key].frozenKind <= 1
    ensures AccountOk(w'.accounts[key]) && CheckAccountPda(env, key, w'.accounts[key]).Pass?
  {
    hide AccountOk, AccountChanged, NonceChanged, CheckAccountPda, SessionInOrder, NewAccountOk;
    assert AccountInOrder(env, w, key);
    AccountTag(w.accounts[key]);
    if w'.accounts[key] != w.accounts[key] { ChangeKeepsSetup(w.accounts[key], w'.accounts[key], e); }
    SetupKeepsOrder(env, key, w.accounts[key], w'.accounts[key]);
  }

  /** A session there is after a step was untouched, charged or granted by it. */
  lemma SessionCases(env: Env, w: World, w': World, e: Event, s: Pubkey)
    requires SessionsStepped(env, w, w', e) && s in w'.sessions
    ensures || (s in w.sessions && w'.sessions[s] == w.sessions[s])
            || (e.effect.Moved? && e.effect.spender == Some(s) && s in w.sessions)
            || (e.effect.Granted? && e.effect.session == s)
  {
    hide Transfers.Spends, SessionGranted, CheckSessionPda, Bit;
  }

  lemma AddressesDiffer(env: Env, w: World)
    requires InOrder(env, w)
    ensures forall key :: key in w.accounts ==> key !in w.sessions
  {
    hide AccountOk, CheckAccountPda, SessionInOrder;
    forall key | key in w.accounts ensures key !in w.sessions { assert AccountInOrder(env, w, key); }
  }

  lemma SessionUntouched(env: Env, w: World, w': World, e: Event, s: Pubkey)
    requires InOrder(env, w) && AccountsStepped(env, w, w', e) && s in w.sessions && s in w'.sessions
    requires w'.sessions[s] == w.sessions[s]
    ensures SessionInOrder(env, w', s) && s !in w.accounts
  {
    hide AccountOk, SessionOk, AccountsStepped, SameSetup, CheckAccountPda, CheckSessionPda;
    assert SessionInOrder(env, w, s);
    AccountAfter(env, w, w', e, w.sessions[s].account);
    SamePolicy(w.accounts[w.sessions[s].account], w'.accounts[w.sessions[s].account]);
    AddressesDiffer(env, w);
  }

  lemma SessionCharged(env: Env, w: World, w': World, e: Event, s: Pubkey)
    requires InOrder(env, w) && AccountsStepped(env, w, w', e) && SessionsStepped(env, w, w', e)
    requires s in w'.sessions && e.effect.Moved? && e.effect.spender == Some(s)
    ensures SessionInOrder(env, w', s) && s !in w.accounts
  {
    hide AccountOk, SessionOk, AccountsStepped, SameSetup, CheckAccountPda, CheckSessionPda, Transfers.Spends, Bit;
    var session := w'.sessions[s];
    assert SessionInOrder(env, w, s);
    var key := w.sessions[s].account;
    AccountAfter(env, w, w', e, key);
    SamePolicy(w.accounts[key], w'.accounts[key]);
    AddressesDiffer(env, w);
    SpendKeepsAccount(w.sessions[s], session, e.effect.mint, e.effect.amount);
    SpentInOrder(env, w.sessions[s], session, w.accounts[key].policy, s, e.effect.mint, e.effect.amount);
  }

  lemma SpendKeepsAccount(s: Session, s': Session, mint: Pubkey, amount: U64)
    requires Transfers.Spends(s, s', mint, amount)
    ensures s'.account == s.account && s'.caps == s.caps && s'.lifetimeCap == s.lifetimeCap
  {
    hide Buckets.FindCap, SpentOf, LifetimeOf;
  }

  lemma SessionBlessed(env: Env, w: World, w': World, e: Event, s: Pubkey)
    requires InOrder(env, w) && AccountsStepped(env, w, w', e) && SessionsStepped(env, w, w', e)
    requires s in w'.sessions && e.effect.Granted? && e.effect.session == s
    ensures SessionInOrder(env, w', s) && s !in w.accounts
  {
    hide AccountOk, SessionOk, AccountsStepped, SameSetup, CheckAccountPda, CheckSessionPda, OverlaidAt;
    AccountAfter(env, w, w', e, e.account);
    SamePolicy(w.accounts[e.account], w'.accounts[e.account]);
    SessionVersion(w'.sessions[s], e.account, w.accounts[e.account].policy);
  }

  lemma SessionAfter(env: Env, w: World, w': World, e: Event, s: Pubkey)
    requires InOrder(env, w) && Stepped(env, w, w', e) && s in w'.sessions
    ensures SessionInOrder(env, w', s) && s !in w'.accounts
  {
    hide SessionInOrder, AccountsStepped, SessionsStepped, InOrder;
    SessionCases(env, w, w', e, s);
    if s in w.sessions && w'.sessions[s] == w.sessions[s] {
      SessionUntouched(env, w, w', e, s);
    } else if e.effect.Moved? {
      SessionCharged(env, w, w', e, s);
    } else {
      SessionBlessed(env, w, w', e, s);
    }
    NotCreatedOver(env, w, w', e, s);
  }

  /** A step never creates an account where a session lives. */
  lemma NotCreatedOver(env: Env, w: World, w': World, e: Event, s: Pubkey)
    requires Stepped(env, w, w', e) && s in w'.sessions && s !in w.accounts
    ensures s !in w'.accounts
  {
    hide AccountChanged, NonceChanged, NewAccountOk, CheckAccountPda, CheckSessionPda, Transfers.Spends, SessionGranted,
      LamportsStepped;
  }

  lemma SamePolicy(a: Account, a': Account)
    requires SameSetup(a, a')
    ensures a'.policy == a.policy
  {
  }

  lemma SpentInOrder(env: Env, s: Session, s': Session, p: Policy, key: Pubkey, mint: Pubkey, amount: U64)
    requires SessionOk(s, s'.account, p) && Transfers.Spends(s, s', mint, amount)
    ensures SessionOk(s', s'.account, p) && s'.account == s.account
    ensures CheckSessionPda(env, SessionRef(key, s'), s.account) == CheckSessionPda(env, SessionRef(key, s), s.account)
  {
    hide SessionOk;
    Transfers.SpendKeepsOrder(s, s', s'.account, p, mint, amount);
  }

  lemma StepKeepsOrder(env: Env, w: World, w': World, e: Event)
    requires InOrder(env, w) && Stepped(env, w, w', e)
    ensures InOrder(env, w')
  {
    hide Stepped, InOrder, SessionInOrder, AccountsStepped, SessionsStepped, AccountOk, CheckAccountPda;
    forall key | key in w'.accounts ensures AccountInOrder(env, w', key) {
      if key in w'.sessions { SessionAfter(env, w, w', e, key); }
      AccountInOrderAfter(env, w, w', e, key);
    }
    forall s | s in w'.sessions ensures SessionInOrder(env, w', s) { SessionAfter(env, w, w', e, s); }
    AllInOrder(env, w');
  }

  lemma AllInOrder(env: Env, w: World)
    requires forall key :: key in w.accounts ==> AccountInOrder(env, w, key)
    requires forall s :: s in w.sessions ==> SessionInOrder(env, w, s)
    ensures InOrder(env, w)
  {
  }

  lemma AccountInOrderAfter(env: Env, w: World, w': World, e: Event, key: Pubkey)
    requires InOrder(env, w) && Stepped(env, w, w', e) && key in w'.accounts
    ensures AccountOk(w'.accounts[key]) && CheckAccountPda(env, key, w'.accounts[key]).Pass?
  {
    hide AccountOk, CheckAccountPda, AccountChanged, NonceChanged, SessionsStepped, LamportsStepped, InOrder;
    if key in w.accounts { AccountAfter(env, w, w', e, key); }
  }

  /** Every reachable world is in order. */
  lemma {:induction false} RunInOrder(env: Env, run: seq<Timed>)
    ensures InOrder(env, Run(env, run).w)
    decreases |run|
  {
    hide Exec, InOrder, Stepped;
    if run == [] {
      assert InOrder(env, GENESIS) by { GenesisInOrder(env); }
    } else {
      var n := |run| - 1;
      RunInOrder(env, run[..n]);
      var m := Run(env, run[..n]);
      if Exec(env, m, run[n].call, run[n].cx).Ok? {
        ExecSteps(env, m, run[n].call, run[n].cx);
        var m' := Exec(env, m, run[n].call, run[n].cx).value;
        StepKeepsOrder(env, m.w, m'.w, m'.log[|m.log|]);
      }
    }
  }

  lemma GenesisInOrder(env: Env)
    ensures InOrder(env, GENESIS)
  {
  }

  /** In every reachable world a session's limits are below the ceiling, and that below the account's own caps. */
  lemma ReachableChain(env: Env, run: seq<Timed>, s: Pubkey, mint: Pubkey)
    requires s in Run(env, run).w.sessions && Buckets.FindCap(Run(env, run).w.sessions[s].caps, mint).Some?
    ensures var w := Run(env, run).w;
            && w.sessions[s].account in w.accounts
            && var p := w.accounts[w.sessions[s].account].policy;
               && Lookup(p.sessionCeiling, mint).Some? && Lookup(p.caps, mint).Some?
               && Lookup(w.sessions[s].caps, mint).value.perTx <= Lookup(p.sessionCeiling, mint).value.perTx
                  <= Lookup(p.caps, mint).value.perTx <= Lookup(p.caps, mint).value.perDay <= Lookup(p.caps, mint).value.per30d
  {
    hide Run, Buckets.FindCap, AccountOk, SessionOk, CheckSessionPda, CheckAccountPda, Lookup;
    RunInOrder(env, run);
    var w := Run(env, run).w;
    assert SessionInOrder(env, w, s);
    var key := w.sessions[s].account;
    assert AccountInOrder(env, w, key);
    AccountTag(w.accounts[key]);
    SessionChain(w.sessions[s], key, w.accounts[key].policy, mint);
  }

  /**
    In every reachable world the merge of a grant that passed its checks never runs out of slots: it can
    only be refused for a lifetime cap below what its mint has already spent.
  */
  lemma GrantsNeverRunOut(env: Env, run: seq<Timed>, key: Pubkey, s: Pubkey, bump: Byte, b: Wire.GrantBody, now: I64)
    requires key in Run(env, run).w.accounts && s !in Run(env, run).w.accounts
    requires var w := Run(env, run).w;
             && (s in w.sessions ==> w.sessions[s].account == key && w.sessions[s].pubkey == b.sessionPubkey)
             && ValidateShape(b).Pass? && ValidateAgainstPolicy(w.accounts[key].policy, b, now).Pass?
    ensures |b.caps| == |b.lifetimeCap|
    ensures var w := Run(env, run).w;
            var r := Upsert(PriorSession(w, s), key, b, bump, w.accounts[key].generation);
            if CoversSpending(PriorSession(w, s), b.caps, b.lifetimeCap) then r.Ok? else r == Err(CapExceeded)
  {
    hide Run, Buckets.FindCap, AccountOk, SessionOk, ValidateShape, ValidateAgainstPolicy, TableOk, GrantableCaps, Overlaid,
      CoversSpending, MergeCaps, PolicyOk, InOrder;
    RunInOrder(env, run);
    var w := Run(env, run).w;
    var a, prior := w.accounts[key], PriorSession(w, s);
    OrderedAccount(env, w, key);
    AccountTag(a);
    PriorIsOk(env, w, key, s);
    ShapeAndPolicyMean(a.policy, b, now);
    PriorOpens(prior, key, a.policy, b, bump);
    OpenedOk(prior, key, a.policy, b, bump, a.generation);
    var t := BeforeMerge(prior, key, b, bump, a.generation);
    MergeIsByMint(t, a.policy, b.caps, b.lifetimeCap);
    SameCover(prior, t, b.caps, b.lifetimeCap);
  }

  lemma PriorOpens(s: Session, key: Pubkey, p: Policy, b: Wire.GrantBody, bump: Byte)
    requires PriorOk(s, key, p) && (s.version != 0 ==> s.pubkey == b.sessionPubkey)
    ensures Opened(s, key, b, bump).Ok?
    ensures var t := Opened(s, key, b, bump).value; t.caps == s.caps && t.lifetimeSpent == s.lifetimeSpent
  {
    hide TableOk, SubMask, EmptySlots, EmptyAmounts;
  }

  lemma SameCover(s: Session, t: Session, caps: seq<Buckets.MintCap>, lifetime: seq<U64>)
    requires t.caps == s.caps && t.lifetimeSpent == s.lifetimeSpent && |caps| <= |lifetime|
    ensures CoversSpending(s, caps, lifetime) <==> CoversSpending(t, caps, lifetime)
  {
    hide Buckets.FindCap;
    forall k | 0 <= k < |caps| ensures SpentOf(s, caps[k].mint) == SpentOf(t, caps[k].mint) {}
  }
}
