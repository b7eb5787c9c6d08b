/**
  What an account is set up as, it stays: in every run the root, the origin, the cluster and the whole
  policy of an account are the arguments of the one instruction that created it.
*/
module RunSetup {
  import opened Base
  import opened State
  import Buckets
  import ClientDataJson
  import PolicyRules
  import RootVerify
  import Transfers
  import opened Lifecycle
  import opened Sessions
  import opened World
  import opened Steps
  import opened Runs
  import opened RunCaps

  ghost predicate Derived(env: Env, w: World, key: Pubkey) {
    && (key in w.accounts ==>
          env.createAddress([Ascii("account"), w.accounts[key].ownerSeed, [w.accounts[key].bump]]) == Some(key))
    && (key in w.sessions ==>
          var s := w.sessions[key]; env.createAddress([Ascii("session"), s.account, s.pubkey, [s.bump]]) == Some(key))
  }

  /** Every account and every session sits at the address derived from its own fields. */
  lemma AddressesAreDerived(env: Env, run: seq<Timed>, key: Pubkey)
    ensures Derived(env, Run(env, run).w, key)
  {
    hide Run, AccountOk, SessionOk, Ascii;
    RunInOrder(env, run);
    NamesAreText();
    SessionSeedIsText();
    var w := Run(env, run).w;
    if key in w.accounts { assert AccountInOrder(env, w, key); }
    if key in w.sessions { assert SessionInOrder(env, w, key); }
  }

  /** The numbers the program fixes. */
  lemma LimitsAreFixed()
    ensures Buckets.DAY_SECS == 86_400 && Buckets.RING_DAYS == 30
    ensures RootVerify.MAX_ROOT_EXPIRY_SECS == 600 && RootVerify.AUTH_DATA_MIN_LEN == 37
    ensures ClientDataJson.MAX_CLIENT_DATA_LEN == 512 && ClientDataJson.MAX_JSON_DEPTH == 16 && CANONICAL_ORIGIN_LEN == 51
    ensures MAX_MINT_CAPS == 8 && PolicyRules.MAX_MINTS_AT_CREATE == 4 && MAX_CAPS_PER_GRANT == 2 && SESSION_KIND_ED25519 == 0
    ensures PolicyRules.MIN_TIMELOCK_SECS == 3_600 && PolicyRules.MAX_SESSION_LIFE_SECS == 2_592_000
    ensures PolicyRules.OPS_MASK_KNOWN == 15
    ensures Transfers.TOKEN_ACCOUNT_LEN == 165 && Transfers.TOKEN_STATE_OFFSET == 108 && Transfers.TOKEN_STATE_INITIALIZED == 1
  {
  }

  predicate Creates(e: Event, key: Pubkey) { e.account == key && e.effect.Created? }

  /** The log has exactly one creation of the account, and the account is set up as it asked for. */
  ghost predicate MadeAs(env: Env, a: Account, log: Log, key: Pubkey) {
    && (exists i :: 0 <= i < |log| && Creates(log[i], key))
    && (forall i :: 0 <= i < |log| && Creates(log[i], key) ==> SetupAs(env, a, log[i].effect.args))
    && (forall i, j :: 0 <= i < |log| && 0 <= j < |log| && Creates(log[i], key) && Creates(log[j], key) ==> i == j)
  }

  ghost predicate AllMade(env: Env, m: Machine) {
    forall key :: key in m.w.accounts ==> MadeAs(env, m.w.accounts[key], m.log, key)
  }

  lemma SetupStays(env: Env, a: Account, a': Account, args: CreateArgs)
    requires SetupAs(env, a, args) && SameSetup(a, a')
    ensures SetupAs(env, a', args)
  {
    hide PolicyRules.PolicyAs;
  }

  lemma FirstOf(env: Env, w: World, a: Account, log: Log, log': Log, key: Pubkey)
    requires |log'| == |log| + 1 && log'[..|log|] == log && LogKnows(w, log) && key !in w.accounts
    requires Creates(log'[|log|], key) && SetupAs(env, a, log'[|log|].effect.args)
    ensures MadeAs(env, a, log', key)
  {
    hide SetupAs;
    LogStep(log, log');
    forall i | 0 <= i < |log| ensures !Creates(log'[i], key) { assert EventKnown(w, log[i]); }
  }

  lemma StillMade(env: Env, a: Account, a': Account, log: Log, log': Log, key: Pubkey)
    requires |log'| == |log| + 1 && log'[..|log|] == log && MadeAs(env, a, log, key) && SameSetup(a, a')
    requires !Creates(log'[|log|], key)
    ensures MadeAs(env, a', log', key)
  {
    hide SetupAs, SameSetup;
    LogStep(log, log');
    var n :| 0 <= n < |log| && Creates(log[n], key);
    assert Creates(log'[n], key);
    forall i | 0 <= i < |log'| && Creates(log'[i], key) ensures SetupAs(env, a', log'[i].effect.args) {
      SetupStays(env, a, a', log'[i].effect.args);
    }
  }

  lemma StepMade(env: Env, m: Machine, m': Machine, now: I64, key: Pubkey)
    requires InOrder(env, m.w) && LogKnows(m.w, m.log) && AllMade(env, m) && Advances(env, m, m', now)
    requires key in m'.w.accounts
    ensures MadeAs(env, m'.w.accounts[key], m'.log, key)
  {
    hide InOrder, LogKnows, MadeAs, SetupAs, AccountChanged, NonceChanged, NewAccountOk, CheckAccountPda, SessionsStepped,
      LamportsStepped, AccountOk, SameSetup;
    if key in m.w.accounts {
      AccountAfter(env, m.w, m'.w, m'.log[|m.log|], key);
      StillMade(env, m.w.accounts[key], m'.w.accounts[key], m.log, m'.log, key);
    } else {
      FirstOf(env, m.w, m'.w.accounts[key], m.log, m'.log, key);
    }
  }

  /** In every run each account is, for good, what the one instruction that created it asked for. */
  lemma {:induction false} SetupIsAsCreated(env: Env, run: seq<Timed>)
    ensures AllMade(env, Run(env, run))
    decreases |run|
  {
    hide Exec, Advances, InOrder, LogKnows, MadeAs;
    if run != [] {
      var n := |run| - 1;
      SetupIsAsCreated(env, run[..n]);
      RunKnows(env, run[..n]);
      RunInOrder(env, run[..n]);
      var m, m' := Run(env, run[..n]), Run(env, run);
      if Exec(env, m, run[n].call, run[n].cx).Ok? {
        ExecSteps(env, m, run[n].call, run[n].cx);
        forall key | key in m'.w.accounts ensures MadeAs(env, m'.w.accounts[key], m'.log, key) {
          StepMade(env, m, m', run[n].cx.now, key);
        }
      }
    }
  }
}
