/**
  Safety of whole runs: what a freeze stops and for how long, what one ceremony can authorise, and how
  far the root itself may go. Each fact is about the log, and the accounts reflect the log.
*/
module RunSafety {
  import opened Base
  import Buckets
  import opened Wire
  import opened State
  import opened PolicyRules
  import opened RootVerify
  import opened Lifecycle
  import Sessions
  import Transfers
  import opened World
  import opened Steps
  import opened Runs
  import opened RunCaps
  import opened Readings
  import RunLedger
  import Base64Url

  /** When the freeze that is in force was made, if one is. */
  function FrozenSince(log: Log, key: Pubkey): Option<I64> {
    if log == [] then None
    else
      var n := |log| - 1;
      var before := FrozenSince(log[..n], key);
      if log[n].account != key then before
      else if log[n].effect.Froze? then Some(log[n].time)
      else if log[n].effect.Unfroze? then None
      else before
  }

  /** How many root ceremonies the account has consumed. */
  function CeremonyCount(log: Log, key: Pubkey): nat {
    if log == [] then 0
    else
      var n := |log| - 1;
      CeremonyCount(log[..n], key) + if log[n].account == key && log[n].ceremony.Some? then 1 else 0
  }

  ghost predicate Reflects(a: Account, log: Log, key: Pubkey) {
    && a.rootNonce == CeremonyCount(log, key)
    && (a.frozenKind == 0 <==> FrozenSince(log, key).None?)
    && (FrozenSince(log, key).Some? ==> a.frozenAt == FrozenSince(log, key).value)
  }

  /** Made for this account and program, for the nonce that was due, and for the action that was executed. */
  ghost predicate CeremonySound(env: Env, e: Event, c: Ceremony, nonce: nat) {
    && c.transcript.account == e.account && c.transcript.programId == env.programId && c.transcript.rootNonce == nonce
    && c.transcript.actionHash == env.keccak(ActionPreimage(c.action))
    && c.challenge == Base64Url.Encode(env.keccak(TranscriptPreimage(c.transcript)))
    && ActionMatches(c.action, e.effect)
  }

  /** The event at `i` was allowed by what had happened before it. */
  ghost predicate EventSafe(env: Env, w: World, log: Log, i: nat)
    requires i < |log|
  {
    var e, past := log[i], log[..i];
    var since := FrozenSince(past, e.account);
    && (e.effect.Moved? || e.effect.Granted? || e.effect.Froze? ==> since.None?)
    && (e.effect.Unfroze? ==>
          && since.Some? && e.account in w.accounts
          && e.time >= since.value + w.accounts[e.account].policy.timelockSecs)
    && (e.effect.Moved? && e.effect.spender.None? ==>
          && e.account in w.accounts && e.ceremony.Some?
          && UnderThreshold(w.accounts[e.account].policy, e.effect.mint, e.effect.amount))
    && (e.ceremony.Some? ==> CeremonySound(env, e, e.ceremony.value, CeremonyCount(past, e.account)))
  }

  ghost predicate LogSafe(env: Env, w: World, log: Log) {
    forall i: nat :: i < |log| ==> EventSafe(env, w, log, i)
  }

  ghost predicate AllReflect(m: Machine) {
    forall key :: key in m.w.accounts ==> Reflects(m.w.accounts[key], m.log, key)
  }

  // ---------------------------------------------------------------- one step

  lemma {:induction false} NothingKnown(w: World, log: Log, key: Pubkey)
    requires LogKnows(w, log) && key !in w.accounts
    ensures FrozenSince(log, key).None? && CeremonyCount(log, key) == 0
    decreases |log|
  {
    if log != [] {
      var n := |log| - 1;
      assert EventKnown(w, log[n]);
      KnowsPrefix(w, log, n);
      NothingKnown(w, log[..n], key);
    }
  }

  lemma ReflectStep(log: Log, log': Log, key: Pubkey)
    requires |log'| == |log| + 1 && log'[..|log|] == log
    ensures var e := log'[|log|];
            && CeremonyCount(log', key)
               == CeremonyCount(log, key) + (if e.account == key && e.ceremony.Some? then 1 else 0)
            && FrozenSince(log', key)
               == if e.account != key then FrozenSince(log, key)
                  else if e.effect.Froze? then Some(e.time)
                  else if e.effect.Unfroze? then None else FrozenSince(log, key)
  {
    LogStep(log, log');
  }

  lemma ChangeReflects(env: Env, a: Account, a': Account, log: Log, log': Log, e: Event)
    requires |log'| == |log| + 1 && log'[..|log|] == log && log'[|log|] == e
    requires Reflects(a, log, e.account) && a.frozenKind <= 1
    requires AccountChanged(a, a', e) && NonceChanged(env, a, a', e)
    ensures Reflects(a', log', e.account)
  {
    hide FrozenSince, CeremonyCount, Buckets.Debited, Buckets.FindCap, UnderThreshold, CeremonyFits;
    ReflectStep(log, log', e.account);
  }

  lemma ChangeIsSafe(env: Env, w: World, a: Account, a': Account, log: Log, log': Log, e: Event)
    requires |log'| == |log| + 1 && log'[..|log|] == log && log'[|log|] == e
    requires Reflects(a, log, e.account) && a.frozenKind <= 1
    requires AccountChanged(a, a', e) && NonceChanged(env, a, a', e)
    requires e.account in w.accounts && w.accounts[e.account].policy == a.policy
    ensures EventSafe(env, w, log', |log|)
  {
    hide FrozenSince, CeremonyCount, Transfers.Debits, UnderThreshold, TranscriptPreimage, ActionPreimage, Base64Url.Encode;
  }

  lemma CreationIsSafe(env: Env, w: World, w': World, log: Log, log': Log)
    requires |log'| == |log| + 1 && log'[..|log|] == log && LogKnows(w, log)
    requires var e := log'[|log|];
             && (e.effect.Created? || e.effect.Deposited? || e.effect.Withdrawn?) && e.ceremony.None?
    ensures EventSafe(env, w', log', |log|)
  {
    hide FrozenSince, CeremonyCount, UnderThreshold;
  }

  lemma PoliciesStay(env: Env, w: World, w': World, e: Event, key: Pubkey)
    requires InOrder(env, w) && Stepped(env, w, w', e) && key in w.accounts
    ensures key in w'.accounts && w'.accounts[key].policy == w.accounts[key].policy
  {
    hide AccountOk, CheckAccountPda, AccountsStepped, SessionsStepped, LamportsStepped, InOrder;
    AccountAfter(env, w, w', e, key);
    SamePolicy(w.accounts[key], w'.accounts[key]);
  }

  lemma OldEventSafe(env: Env, m: Machine, m': Machine, now: I64, i: nat)
    requires InOrder(env, m.w) && LogKnows(m.w, m.log) && Advances(env, m, m', now)
    requires i < |m.log| && EventSafe(env, m.w, m.log, i)
    ensures EventSafe(env, m'.w, m'.log, i)
  {
    hide Stepped, InOrder, FrozenSince, CeremonyCount, UnderThreshold, CeremonySound;
    LogStep(m.log, m'.log);
    assert m'.log[..i] == m.log[..i];
    var key := m.log[i].account;
    if key in m.w.accounts { PoliciesStay(env, m.w, m'.w, m'.log[|m.log|], key); }
  }

  lemma NewEventSafe(env: Env, m: Machine, m': Machine, now: I64)
    requires InOrder(env, m.w) && LogKnows(m.w, m.log) && AllReflect(m) && Advances(env, m, m', now)
    ensures EventSafe(env, m'.w, m'.log, |m.log|)
  {
    hide AccountChanged, NonceChanged, NewAccountOk, CheckAccountPda, SessionsStepped, LamportsStepped, InOrder, LogKnows,
      EventSafe, Reflects;
    var e := m'.log[|m.log|];
    if e.effect.Created? || e.effect.Deposited? || e.effect.Withdrawn? {
      CreationIsSafe(env, m.w, m'.w, m.log, m'.log);
    } else {
      StoredTag(env, m.w, e.account);
      PoliciesStay(env, m.w, m'.w, e, e.account);
      ChangeIsSafe(env, m'.w, m.w.accounts[e.account], m'.w.accounts[e.account], m.log, m'.log, e);
    }
  }

  lemma StoredTag(env: Env, w: World, key: Pubkey)
    requires InOrder(env, w) && key in w.accounts
    ensures w.accounts[key].frozenKind <= 1
  {
    hide SessionInOrder, CheckAccountPda, AccountOk;
    assert AccountInOrder(env, w, key);
    AccountTag(w.accounts[key]);
  }

  lemma AccountReflects(env: Env, m: Machine, m': Machine, now: I64, key: Pubkey)
    requires InOrder(env, m.w) && LogKnows(m.w, m.log) && AllReflect(m) && Advances(env, m, m', now)
    requires key in m'.w.accounts
    ensures Reflects(m'.w.accounts[key], m'.log, key)
  {
    hide AccountChanged, NonceChanged, AccountOk, CheckAccountPda, SessionsStepped, LamportsStepped, InOrder, LogKnows,
      FrozenSince, CeremonyCount;
    var e := m'.log[|m.log|];
    ReflectStep(m.log, m'.log, key);
    if key !in m.w.accounts {
      NothingKnown(m.w, m.log, key);
    } else if e.account == key && !e.effect.Deposited? && !e.effect.Withdrawn? {
      StoredTag(env, m.w, key);
      ChangeReflects(env, m.w.accounts[key], m'.w.accounts[key], m.log, m'.log, e);
    } else {
      assert Reflects(m.w.accounts[key], m.log, key);
    }
  }

  // ---------------------------------------------------------------- all runs

  lemma {:induction false} RunIsSafe(env: Env, run: seq<Timed>)
    ensures AllReflect(Run(env, run)) && LogSafe(env, Run(env, run).w, Run(env, run).log)
    decreases |run|
  {
    hide Exec, Advances, InOrder, LogKnows, Reflects, EventSafe;
    if run != [] {
      var n := |run| - 1;
      RunIsSafe(env, run[..n]);
      RunKnows(env, run[..n]);
      RunInOrder(env, run[..n]);
      var m := Run(env, run[..n]);
      if Exec(env, m, run[n].call, run[n].cx).Ok? {
        ExecSteps(env, m, run[n].call, run[n].cx);
        AdvanceIsSafe(env, m, Exec(env, m, run[n].call, run[n].cx).value, run[n].cx.now);
      }
    }
  }

  lemma AdvanceIsSafe(env: Env, m: Machine, m': Machine, now: I64)
    requires InOrder(env, m.w) && LogKnows(m.w, m.log) && AllReflect(m) && LogSafe(env, m.w, m.log)
    requires Advances(env, m, m', now)
    ensures AllReflect(m') && LogSafe(env, m'.w, m'.log)
  {
    hide Stepped, InOrder, LogKnows, Reflects, EventSafe;
    forall key | key in m'.w.accounts ensures Reflects(m'.w.accounts[key], m'.log, key) {
      AccountReflects(env, m, m', now, key);
    }
    forall i: nat | i < |m'.log| ensures EventSafe(env, m'.w, m'.log, i) {
      if i < |m.log| { OldEventSafe(env, m, m', now, i); } else { NewEventSafe(env, m, m', now); }
    }
  }

  // ---------------------------------------------------------------- freezing

  ghost predicate ThawedBetween(log: Log, key: Pubkey, i: nat, j: nat)
    requires j <= |log|
  {
    exists k: nat :: i < k < j && IsThaw(log[k], key)
  }

  predicate IsThaw(e: Event, key: Pubkey) { e.account == key && e.effect.Unfroze? }

  /** A freeze stays in force, with its first time stamp, until it is lifted. */
  lemma {:induction false} FreezeHolds(env: Env, w: World, log: Log, key: Pubkey, i: nat, j: nat)
    requires LogSafe(env, w, log) && i < j <= |log|
    requires log[i].account == key && log[i].effect.Froze? && !ThawedBetween(log, key, i, j)
    ensures FrozenSince(log[..j], key) == Some(log[i].time)
    decreases j
  {
    hide EventSafe;
    var past := log[..j];
    assert past[..j - 1] == log[..j - 1];
    if i < j - 1 {
      assert !ThawedBetween(log, key, i, j - 1);
      FreezeHolds(env, w, log, key, i, j - 1);
      assert EventSafe(env, w, log, j - 1);
      if log[j - 1].account == key { NoSecondFreeze(env, w, log, j - 1); }
      assert !IsThaw(log[j - 1], key);
    }
  }

  lemma NoSecondFreeze(env: Env, w: World, log: Log, i: nat)
    requires i < |log| && EventSafe(env, w, log, i) && FrozenSince(log[..i], log[i].account).Some?
    ensures !log[i].effect.Froze? && !log[i].effect.Moved? && !log[i].effect.Granted?
  {
    hide FrozenSince, UnderThreshold, CeremonySound, CeremonyCount;
  }

  lemma {:induction false} FirstThaw(log: Log, key: Pubkey, i: nat, j: nat) returns (k: nat)
    requires j <= |log| && ThawedBetween(log, key, i, j)
    ensures i < k < j && IsThaw(log[k], key) && !ThawedBetween(log, key, i, k)
    decreases j
  {
    if ThawedBetween(log, key, i, j - 1) {
      k := FirstThaw(log, key, i, j - 1);
    } else {
      k :| i < k < j && IsThaw(log[k], key);
    }
  }

  /**
    After a freeze, nothing is moved and nothing is granted before an unfreeze, and the first unfreeze
    comes at least the policy's timelock, and so at least an hour, after the freeze.
  */
  lemma FreezeStopsOutflow(env: Env, run: seq<Timed>, key: Pubkey, i: nat, j: nat) returns (k: nat)
    requires i < j < |Run(env, run).log| && Run(env, run).log[i].account == key && Run(env, run).log[j].account == key
    requires Run(env, run).log[i].effect.Froze?
    requires var e := Run(env, run).log[j].effect; e.Moved? || e.Granted? || e.Froze?
    ensures i < k < j && IsThaw(Run(env, run).log[k], key)
    ensures key in Run(env, run).w.accounts
    ensures var lock := Run(env, run).w.accounts[key].policy.timelockSecs;
            lock >= MIN_TIMELOCK_SECS && Run(env, run).log[k].time >= Run(env, run).log[i].time + lock
  {
    hide Run, EventSafe, FrozenSince, InOrder;
    RunIsSafe(env, run);
    RunInOrder(env, run);
    var m := Run(env, run);
    assert EventSafe(env, m.w, m.log, j);
    if !ThawedBetween(m.log, key, i, j) {
      FreezeHolds(env, m.w, m.log, key, i, j);
      NoSecondFreeze(env, m.w, m.log, j);
    }
    k := FirstThaw(m.log, key, i, j);
    FreezeHolds(env, m.w, m.log, key, i, k);
    assert EventSafe(env, m.w, m.log, k);
    ThawIsLate(env, m.w, m.log, k);
    OrderedPolicy(env, m.w, key);
    LongTimelock(m.w.accounts[key].policy);
  }

  lemma ThawIsLate(env: Env, w: World, log: Log, k: nat)
    requires k < |log| && EventSafe(env, w, log, k) && log[k].effect.Unfroze?
    ensures FrozenSince(log[..k], log[k].account).Some? && log[k].account in w.accounts
    ensures log[k].time >= FrozenSince(log[..k], log[k].account).value + w.accounts[log[k].account].policy.timelockSecs
  {
    hide FrozenSince, UnderThreshold, CeremonySound, CeremonyCount;
  }

  lemma LongTimelock(p: Policy)
    requires PolicyOk(p)
    ensures p.timelockSecs >= MIN_TIMELOCK_SECS
  {
    hide SubMask, SlotOrdered, UsedSlots;
  }

  /** The stored freeze is always the one in the log, by the root and never by a guardian. */
  lemma FreezeIsRecorded(env: Env, run: seq<Timed>, key: Pubkey)
    requires key in Run(env, run).w.accounts
    ensures var a, since := Run(env, run).w.accounts[key], FrozenSince(Run(env, run).log, key);
            if since.None? then FrozenTag(a) == Ok(NotFrozen) else FrozenTag(a) == Ok(FrozenByRoot) && a.frozenAt == since.value
  {
    hide Run, InOrder, FrozenSince, CeremonyCount, LogSafe;
    RunIsSafe(env, run);
    RunInOrder(env, run);
    StoredTag(env, Run(env, run).w, key);
    assert Reflects(Run(env, run).w.accounts[key], Run(env, run).log, key);
  }

  // ---------------------------------------------------------------- standing still

  /** While an account is frozen no step changes its buckets or any of its sessions, short of closing one. */
  lemma FrozenStandsStill(env: Env, w: World, w': World, e: Event, key: Pubkey)
    requires InOrder(env, w) && Stepped(env, w, w', e) && key in w.accounts && w.accounts[key].frozenKind != 0
    ensures key in w'.accounts && w'.accounts[key].buckets == w.accounts[key].buckets
    ensures w'.accounts[key].frozenKind == 0 ==> IsThaw(e, key)
    ensures forall s :: s in w'.sessions && w'.sessions[s].account == key ==> s in w.sessions && w'.sessions[s] == w.sessions[s]
  {
    hide InOrder, NonceChanged, Transfers.Debits, UnderThreshold, Transfers.Spends, SessionGranted, CheckAccountPda,
      Sessions.CheckSessionPda, Bit, NewAccountOk, LamportsStepped;
    forall s | s in w'.sessions && w'.sessions[s].account == key ensures s in w.sessions && w'.sessions[s] == w.sessions[s] {
      SessionCases(env, w, w', e, s);
      SessionKeepsAccount(env, w, w', e, s);
    }
  }

  lemma SessionKeepsAccount(env: Env, w: World, w': World, e: Event, s: Pubkey)
    requires SessionsStepped(env, w, w', e) && s in w'.sessions
    ensures (e.effect.Moved? && e.effect.spender == Some(s)) || (e.effect.Granted? && e.effect.session == s) ==>
              w'.sessions[s].account == e.account
  {
    hide Sessions.CheckSessionPda, Bit;
    if e.effect.Moved? && e.effect.spender == Some(s) {
      SpendKeepsAccount(w.sessions[s], w'.sessions[s], e.effect.mint, e.effect.amount);
    } else if e.effect.Granted? && e.effect.session == s {
      SessionVersion(w'.sessions[s], e.account, w.accounts[e.account].policy);
    }
  }

  ghost predicate StaysFrozen(log: Log, key: Pubkey, from: nat) {
    forall k :: from <= k < |log| ==> !IsThaw(log[k], key)
  }

  /** From a freeze on, over any run that does not thaw the account, its buckets and its surviving sessions stay as they were. */
  lemma {:induction false} FreezePreserves(env: Env, run: seq<Timed>, i: nat, key: Pubkey)
    requires i <= |run| && key in Run(env, run[..i]).w.accounts && Run(env, run[..i]).w.accounts[key].frozenKind != 0
    requires StaysFrozen(Run(env, run).log, key, |Run(env, run[..i]).log|)
    ensures StillFrozen(Run(env, run[..i]).w, Run(env, run).w, key)
    decreases |run|
  {
    hide Exec, InOrder, Stepped, StillFrozen;
    if i == |run| {
      assert run[..i] == run;
      StillFrozenSame(Run(env, run).w, key);
    } else {
      var n := |run| - 1;
      assert run[..n][..i] == run[..i];
      RunInOrder(env, run[..n]);
      var m := Run(env, run[..n]);
      if Exec(env, m, run[n].call, run[n].cx).Ok? {
        ExecSteps(env, m, run[n].call, run[n].cx);
        var m' := Exec(env, m, run[n].call, run[n].cx).value;
        RunLedger.LogGrows(env, run[..n], i);
        FrozenBefore(m.log, m'.log, key, |Run(env, run[..i]).log|);
        FreezePreserves(env, run[..n], i, key);
        StillFrozenStep(env, Run(env, run[..i]).w, m.w, m'.w, m'.log[|m.log|], key);
      } else {
        FreezePreserves(env, run[..n], i, key);
      }
    }
  }

  ghost predicate StillFrozen(w: World, w': World, key: Pubkey)
    requires key in w.accounts
  {
    && key in w'.accounts && w'.accounts[key].frozenKind != 0 && w'.accounts[key].buckets == w.accounts[key].buckets
    && forall s :: s in w'.sessions && w'.sessions[s].account == key ==> s in w.sessions && w'.sessions[s] == w.sessions[s]
  }

  lemma StillFrozenSame(w: World, key: Pubkey)
    requires key in w.accounts && w.accounts[key].frozenKind != 0
    ensures StillFrozen(w, w, key)
  {
  }

  lemma StillFrozenStep(env: Env, w0: World, w: World, w': World, e: Event, key: Pubkey)
    requires key in w0.accounts && StillFrozen(w0, w, key) && InOrder(env, w) && Stepped(env, w, w', e) && !IsThaw(e, key)
    ensures StillFrozen(w0, w', key)
  {
    hide InOrder, Stepped;
    FrozenStandsStill(env, w, w', e, key);
  }

  lemma FrozenBefore(log: Log, log': Log, key: Pubkey, from: nat)
    requires |log'| == |log| + 1 && log'[..|log|] == log && from <= |log| && StaysFrozen(log', key, from)
    ensures StaysFrozen(log, key, from) && !IsThaw(log'[|log|], key)
  {
    LogStep(log, log');
    forall k | from <= k < |log| ensures !IsThaw(log[k], key) { assert !IsThaw(log'[k], key); }
  }

  // ---------------------------------------------------------------- one ceremony, one action

  lemma {:induction false} CountGrows(log: Log, key: Pubkey, i: nat, j: nat)
    requires i < j <= |log| && log[i].account == key && log[i].ceremony.Some?
    ensures CeremonyCount(log[..i], key) < CeremonyCount(log[..j], key)
    decreases j
  {
    assert log[..j][..j - 1] == log[..j - 1];
    if i < j - 1 { CountGrows(log, key, i, j - 1); }
  }

  lemma SoundAt(env: Env, w: World, log: Log, i: nat)
    requires i < |log| && EventSafe(env, w, log, i) && log[i].ceremony.Some?
    ensures CeremonySound(env, log[i], log[i].ceremony.value, CeremonyCount(log[..i], log[i].account))
  {
    hide FrozenSince, UnderThreshold, CeremonySound, CeremonyCount;
  }

  /** Two root instructions of a run, of whatever accounts, never used the same challenge. */
  lemma OneCeremonyOneAction(env: Env, run: seq<Timed>, i: nat, j: nat)
    requires i < j < |Run(env, run).log|
    requires Run(env, run).log[i].ceremony.Some? && Run(env, run).log[j].ceremony.Some?
    requires NoCollision(env.keccak, TranscriptPreimage(Run(env, run).log[i].ceremony.value.transcript),
                         TranscriptPreimage(Run(env, run).log[j].ceremony.value.transcript))
    ensures Run(env, run).log[i].ceremony.value.challenge != Run(env, run).log[j].ceremony.value.challenge
  {
    hide Run, EventSafe, CeremonyCount, TranscriptPreimage, ActionPreimage, Base64Url.Encode, ActionMatches;
    RunIsSafe(env, run);
    var m := Run(env, run);
    assert EventSafe(env, m.w, m.log, i) && EventSafe(env, m.w, m.log, j);
    SoundAt(env, m.w, m.log, i);
    SoundAt(env, m.w, m.log, j);
    var c, d := m.log[i].ceremony.value, m.log[j].ceremony.value;
    if c.challenge == d.challenge {
      ChallengeInjective(env, c.transcript, d.transcript);
      CountGrows(m.log, m.log[i].account, i, j);
    }
  }

  /** The `n`-th instruction of the run made the `i`-th event. */
  ghost predicate MadeBy(env: Env, run: seq<Timed>, i: nat, n: nat) {
    && n < |run| && i < |Run(env, run).log| && |Run(env, run[..n]).log| == i
    && Run(env, run[..n + 1]).log == Run(env, run).log[..i + 1]
    && Stepped(env, Run(env, run[..n]).w, Run(env, run[..n + 1]).w, Run(env, run).log[i])
  }

  lemma {:induction false} StepOf(env: Env, run: seq<Timed>, i: nat) returns (n: nat)
    requires i < |Run(env, run).log|
    ensures MadeBy(env, run, i, n)
    decreases |run|
  {
    hide Exec, Stepped, InOrder;
    var last := |run| - 1;
    assert run[..last + 1] == run;
    RunInOrder(env, run[..last]);
    var m, m' := Run(env, run[..last]), Run(env, run);
    if Exec(env, m, run[last].call, run[last].cx).Ok? { ExecSteps(env, m, run[last].call, run[last].cx); }
    if i < |m.log| {
      n := StepOf(env, run[..last], i);
      RunLedger.LogGrows(env, run, last);
      EarlierStep(env, run, i, n);
    } else {
      n := last;
      assert m'.log[..i + 1] == m'.log;
    }
  }

  lemma EarlierStep(env: Env, run: seq<Timed>, i: nat, n: nat)
    requires run != [] && MadeBy(env, run[..|run| - 1], i, n)
    requires |Run(env, run[..|run| - 1]).log| <= |Run(env, run).log|
    requires Run(env, run).log[..|Run(env, run[..|run| - 1]).log|] == Run(env, run[..|run| - 1]).log
    ensures MadeBy(env, run, i, n)
  {
    hide Run, Stepped;
    var last := |run| - 1;
    assert run[..last][..n] == run[..n] && run[..last][..n + 1] == run[..n + 1];
    RunLedger.PrefixTwice(Run(env, run).log, |Run(env, run[..last]).log|, i + 1);
    assert Run(env, run[..last]).log[i] == Run(env, run).log[i];
  }

  /** The stored session is the prior one with the limits of this very document overlaid. */
  ghost predicate GrantTookEffect(w: World, w': World, e: Event, b: GrantBody) {
    && e.effect.Granted? && e.account in w.accounts && e.effect.session in w'.sessions
    && SessionGranted(PriorSession(w, e.effect.session), w'.sessions[e.effect.session], w.accounts[e.account], e.account,
                      e.time, b)
  }

  /** The transcript was the account's current one when the event happened, and still fresh; a grant did what it says. */
  ghost predicate SignatureTookEffect(env: Env, w: World, w': World, e: Event, t: Transcript, signed: Action) {
    && e.account in w.accounts && TranscriptFits(env, w.accounts[e.account], e.account, t.expiryTs, signed, t)
    && e.time <= t.expiryTs <= e.time + MAX_ROOT_EXPIRY_SECS && ActionMatches(signed, e.effect)
    && (signed.GrantSession? ==> GrantTookEffect(w, w', e, signed.grant))
  }

  lemma StepTakesEffect(env: Env, w: World, w': World, e: Event)
    requires Stepped(env, w, w', e) && e.ceremony.Some?
    ensures SignatureTookEffect(env, w, w', e, e.ceremony.value.transcript, e.ceremony.value.action)
  {
    hide AccountChanged, NewAccountOk, CheckAccountPda, Sessions.CheckSessionPda, SessionGranted, Transfers.Spends,
      LamportsStepped, TranscriptFits, TranscriptPreimage, Base64Url.Encode, Bit;
  }

  /** The passkey signed these bytes over these action bytes, and the event consumed that challenge; no hash collides. */
  ghost predicate SignedFor(env: Env, e: Event, transcript: Bytes, action: Bytes) {
    && e.ceremony.Some? && e.ceremony.value.challenge == Base64Url.Encode(env.keccak(transcript))
    && |transcript| == TRANSCRIPT_LEN && ReadKey(transcript, 138) == env.keccak(action)
    && NoCollision(env.keccak, TranscriptPreimage(e.ceremony.value.transcript), transcript)
    && NoCollision(env.keccak, ActionPreimage(e.ceremony.value.action), action)
  }

  /** It was made by a step of the run for which the whole signature took effect. */
  ghost predicate TookEffect(env: Env, run: seq<Timed>, i: nat, e: Event, t: Transcript, signed: Action) {
    exists n: nat ::
      MadeBy(env, run, i, n) && SignatureTookEffect(env, Run(env, run[..n]).w, Run(env, run[..n + 1]).w, e, t, signed)
  }

  lemma SignedIsCeremony(env: Env, e: Event, transcript: Bytes, action: Bytes)
    requires SignedFor(env, e, transcript, action)
    requires var c := e.ceremony.value;
             && c.challenge == Base64Url.Encode(env.keccak(TranscriptPreimage(c.transcript)))
             && c.transcript.actionHash == env.keccak(ActionPreimage(c.action))
    ensures ReadTranscript(transcript) == Some(e.ceremony.value.transcript)
    ensures ReadAction(action) == Some(e.ceremony.value.action)
  {
    hide TranscriptPreimage, ActionPreimage, Base64Url.Encode, ReadAction, ReadKey;
    var c := e.ceremony.value;
    Base64Url.EncodeInjective(env.keccak(TranscriptPreimage(c.transcript)), env.keccak(transcript));
    TranscriptReads(c.transcript);
    ActionReads(c.action);
  }

  /**
    Whatever bytes the passkey signed, if their challenge was consumed then what they say is what took
    effect, whole: account, program, nonce, generation, policy version and expiry were the current ones,
    the operation is the executed one, and a grant left exactly the signed limits.
  */
  lemma SignedTookEffect(env: Env, run: seq<Timed>, i: nat, transcript: Bytes, action: Bytes)
    requires i < |Run(env, run).log| && SignedFor(env, Run(env, run).log[i], transcript, action)
    ensures ReadTranscript(transcript).Some? && ReadAction(action).Some?
    ensures var e, t, signed := Run(env, run).log[i], ReadTranscript(transcript).value, ReadAction(action).value;
            && e.ceremony.value == Ceremony(Base64Url.Encode(env.keccak(transcript)), t, signed)
            && t.account == e.account && t.programId == env.programId
            && t.rootNonce == CeremonyCount(Run(env, run).log[..i], e.account)
            && TookEffect(env, run, i, e, t, signed)
  {
    hide Run, EventSafe, CeremonyCount, TranscriptPreimage, ActionPreimage, Base64Url.Encode, ActionMatches, Stepped,
      SignatureTookEffect, MadeBy, ReadTranscript, ReadAction, SignedFor;
    RunIsSafe(env, run);
    var m := Run(env, run);
    var e := m.log[i];
    assert EventSafe(env, m.w, m.log, i);
    assert e.ceremony.Some? && e.ceremony.value.challenge == Base64Url.Encode(env.keccak(transcript)) by {
      SignedChallenge(env, e, transcript, action);
    }
    SoundAt(env, m.w, m.log, i);
    SignedIsCeremony(env, e, transcript, action);
    var n := StepOf(env, run, i);
    MadeStep(env, run, i, n);
    StepTakesEffect(env, Run(env, run[..n]).w, Run(env, run[..n + 1]).w, e);
  }

  lemma SignedChallenge(env: Env, e: Event, transcript: Bytes, action: Bytes)
    requires SignedFor(env, e, transcript, action)
    ensures e.ceremony.Some? && e.ceremony.value.challenge == Base64Url.Encode(env.keccak(transcript))
  {
  }

  /** The first signed byte names the effect: 0 rotates, 1 grants, 2 revokes, 3 freezes, 4 unfreezes, 5 transfers. */
  lemma SignedByteMeans(env: Env, run: seq<Timed>, i: nat, transcript: Bytes, action: Bytes)
    requires i < |Run(env, run).log| && SignedFor(env, Run(env, run).log[i], transcript, action)
    ensures action != []
    ensures var e := Run(env, run).log[i].effect;
            && (action[0] == 0 <==> e.Rotated?) && (action[0] == 1 <==> e.Granted?) && (action[0] == 2 <==> e.Closed?)
            && (action[0] == 3 <==> e.Froze?) && (action[0] == 4 <==> e.Unfroze?) && (action[0] == 5 <==> e.Moved?)
  {
    hide Run, TranscriptPreimage, ActionPreimage, Base64Url.Encode, SignedFor, ReadGrant, ReadTransfer, TookEffect,
      ReadTranscript;
    SignedTookEffect(env, run, i, transcript, action);
    EffectMatches(env, run, i, Run(env, run).log[i], ReadTranscript(transcript).value, ReadAction(action).value);
  }

  lemma EffectMatches(env: Env, run: seq<Timed>, i: nat, e: Event, t: Transcript, signed: Action)
    requires TookEffect(env, run, i, e, t, signed)
    ensures ActionMatches(signed, e.effect)
  {
    hide Run, Stepped, TranscriptFits, ActionMatches, GrantTookEffect;
    var n: nat :| n < |run| && MadeBy(env, run, i, n)
                  && SignatureTookEffect(env, Run(env, run[..n]).w, Run(env, run[..n + 1]).w, e, t, signed);
  }

  lemma MadeStep(env: Env, run: seq<Timed>, i: nat, n: nat)
    requires MadeBy(env, run, i, n)
    ensures n < |run| && i < |Run(env, run).log|
    ensures Stepped(env, Run(env, run[..n]).w, Run(env, run[..n + 1]).w, Run(env, run).log[i])
  {
    hide Run, Stepped;
  }

  /** The nonce counts the consumed ceremonies. */
  lemma NonceCounts(env: Env, run: seq<Timed>, key: Pubkey)
    requires key in Run(env, run).w.accounts
    ensures Run(env, run).w.accounts[key].rootNonce == CeremonyCount(Run(env, run).log, key)
  {
    hide Run, FrozenSince, CeremonyCount, LogSafe;
    RunIsSafe(env, run);
    assert Reflects(Run(env, run).w.accounts[key], Run(env, run).log, key);
  }

  /** The root's own transfers each stay within the account's threshold for the mint. */
  lemma RootIsBounded(env: Env, run: seq<Timed>, i: nat)
    requires i < |Run(env, run).log| && Run(env, run).log[i].effect.Moved?
    requires Run(env, run).log[i].effect.spender.None?
    ensures var e := Run(env, run).log[i];
            && e.account in Run(env, run).w.accounts && e.ceremony.Some?
            && UnderThreshold(Run(env, run).w.accounts[e.account].policy, e.effect.mint, e.effect.amount)
  {
    hide Run, FrozenSince, CeremonyCount, UnderThreshold, CeremonySound, AllReflect;
    RunIsSafe(env, run);
    assert EventSafe(env, Run(env, run).w, Run(env, run).log, i);
  }
}
