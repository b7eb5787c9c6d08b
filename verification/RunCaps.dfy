/**
  Spending over runs. The log gives one ledger per account and mint, fed by every session and the root
  alike; the account's bucket is its last 30 days, so the account's caps bound all outflows together.
*/
module RunCaps {
  import opened Base
  import opened Buckets
  import opened Clocks
  import opened State
  import PolicyRules
  import Lifecycle
  import Transfers
  import opened World
  import opened Steps
  import opened Runs

  predicate Concerns(e: Event, key: Pubkey, mint: Pubkey) {
    e.account == key && e.effect.Moved? && e.effect.mint == mint
  }

  /** Everything the account ever moved of a mint, whoever authorised it; native SOL counts as wrapped SOL. */
  function LedgerOf(log: Log, key: Pubkey, mint: Pubkey): Ledger {
    if log == [] then []
    else
      var n := |log| - 1;
      var rest := LedgerOf(log[..n], key, mint);
      if Concerns(log[n], key, mint) then rest + [Buckets.Entry(log[n].time, log[n].effect.amount)] else rest
  }

  /** Only accounts that exist have done anything but hold lamports, and lamports move without a ceremony. */
  ghost predicate LogKnows(w: World, log: Log) {
    forall i :: 0 <= i < |log| ==> EventKnown(w, log[i])
  }

  ghost predicate EventKnown(w: World, e: Event) {
    ((e.effect.Deposited? || e.effect.Withdrawn?) && e.ceremony.None?) || e.account in w.accounts
  }

  lemma LogStep(log: Log, log': Log)
    requires |log'| == |log| + 1 && log'[..|log|] == log
    ensures log'[..|log'| - 1] == log && log' != []
    ensures forall i :: 0 <= i < |log| ==> log'[i] == log[i]
  {
    forall i | 0 <= i < |log| ensures log'[i] == log[i] { assert log'[..|log|][i] == log'[i]; }
  }

  lemma AdvanceKnows(env: Env, m: Machine, m': Machine, now: I64)
    requires LogKnows(m.w, m.log) && Advances(env, m, m', now)
    ensures LogKnows(m'.w, m'.log)
  {
    hide AccountChanged, NonceChanged, NewAccountOk, Lifecycle.CheckAccountPda, SessionsStepped, LamportsStepped;
    LogStep(m.log, m'.log);
    forall i | 0 <= i < |m'.log| ensures EventKnown(m'.w, m'.log[i]) {
      if i < |m.log| { assert EventKnown(m.w, m.log[i]); }
    }
  }

  lemma {:induction false} NoLedger(w: World, log: Log, key: Pubkey, mint: Pubkey)
    requires LogKnows(w, log) && key !in w.accounts
    ensures LedgerOf(log, key, mint) == []
    decreases |log|
  {
    if log != [] {
      assert EventKnown(w, log[|log| - 1]);
      KnowsPrefix(w, log, |log| - 1);
      NoLedger(w, log[..|log| - 1], key, mint);
    }
  }

  lemma KnowsPrefix(w: World, log: Log, n: nat)
    requires LogKnows(w, log) && n <= |log|
    ensures LogKnows(w, log[..n])
  {
    forall i | 0 <= i < n ensures EventKnown(w, log[..n][i]) { assert EventKnown(w, log[i]); }
  }

  // ---------------------------------------------------------------- buckets follow ledgers

  /** No movement is on an earlier day than one before it. */
  ghost predicate Steady(l: Ledger) { forall j, k :: 0 <= j < k < |l| ==> Day(l[j].time) <= Day(l[k].time) }

  /** The bucket is what the ledger makes of it under any clock, and its very mirror if the days never go back. */
  ghost predicate Tracks(b: Bucket, l: Ledger, cap: MintCap) {
    && Follows(b, l) && CapsHold(l, cap)
    && (Steady(l) ==> Refines(b, l) && (b.dayStart == 0 || (l != [] && b.dayStart <= l[|l| - 1].time)))
  }

  ghost predicate AccountTracks(a: Account, log: Log, key: Pubkey) {
    && (forall k: nat :: k < 8 && a.policy.caps[k].mint != DEFAULT_KEY ==>
          Tracks(a.buckets[k], LedgerOf(log, key, a.policy.caps[k].mint), a.policy.caps[k]))
    && (forall mint :: FindCap(a.policy.caps, mint).None? ==> LedgerOf(log, key, mint) == [])
  }

  ghost predicate AllTrack(m: Machine) {
    forall key :: key in m.w.accounts ==> AccountTracks(m.w.accounts[key], m.log, key)
  }

  lemma LedgerStep(log: Log, log': Log, key: Pubkey, mint: Pubkey)
    requires |log'| == |log| + 1 && log'[..|log|] == log
    ensures var e := log'[|log|];
            LedgerOf(log', key, mint) == LedgerOf(log, key, mint)
              + if Concerns(e, key, mint) then [Buckets.Entry(e.time, e.effect.amount)] else []
  {
    LogStep(log, log');
  }

  lemma NewTracks(a: Account, w: World, log: Log, key: Pubkey)
    requires NewAccountOk(a) && LogKnows(w, log) && key !in w.accounts
    ensures AccountTracks(a, log, key)
  {
    hide Lifecycle.AccountOk, Refines, Follows, CapsHold, LedgerOf, LogKnows;
    EmptyRefines();
    EmptyFollows();
    forall mint ensures LedgerOf(log, key, mint) == [] { NoLedger(w, log, key, mint); }
    forall k: nat | k < 8 ensures CapsHold([], a.policy.caps[k]) { EmptyHolds(a.policy.caps[k]); }
  }

  lemma SteadySnoc(l: Ledger, e: Buckets.Entry)
    ensures Steady(l + [e]) ==> Steady(l) && (l != [] ==> Day(l[|l| - 1].time) <= Day(e.time))
  {
    var l' := l + [e];
    if Steady(l') {
      forall j, k | 0 <= j < k < |l| ensures Day(l[j].time) <= Day(l[k].time) { assert l'[j] == l[j] && l'[k] == l[k]; }
      if l != [] { assert l'[|l| - 1] == l[|l| - 1] && l'[|l|] == e; }
    }
  }

  /** From the last movement's day on, the time is not before the bucket's day. */
  lemma NotBehind(b: Bucket, l: Ledger, now: I64)
    requires 0 <= now && Refines(b, l)
    requires b.dayStart == 0 || (l != [] && b.dayStart <= l[|l| - 1].time && Day(l[|l| - 1].time) <= Day(now))
    ensures b.dayStart <= now
  {
    hide Mirrors, DayTotal, UpTo;
    assert Day(now) * DAY_SECS <= now;
  }

  lemma DebitTracks(b: Bucket, l: Ledger, cap: MintCap, amount: U64, now: I64)
    requires Tracks(b, l, cap) && Debited(b, cap, amount, now).Ok?
    ensures Tracks(Debited(b, cap, amount, now).value, l + [Buckets.Entry(now, amount)], cap)
  {
    hide Refines, Follows, CapsHold, Sum, ZeroSkipped, Steady;
    DebitFollows(b, l, cap, amount, now);
    DebitHolds(b, l, cap, amount, now);
    SteadySnoc(l, Buckets.Entry(now, amount));
    if Steady(l + [Buckets.Entry(now, amount)]) {
      NotBehind(b, l, now);
      DebitRefines(b, l, cap, amount, now);
    }
  }

  /** A movement of one mint: its slot's bucket and ledger advance together, the others stand still. */
  lemma MoveTracks(a: Account, a': Account, log: Log, log': Log, key: Pubkey)
    requires PolicyRules.PolicyOk(a.policy) && AccountTracks(a, log, key)
    requires |log'| == |log| + 1 && log'[..|log|] == log
    requires log'[|log|].effect.Moved? && log'[|log|].account == key
    requires var e := log'[|log|]; Transfers.Debits(a, a', e.effect.mint, e.effect.amount, e.time)
    ensures AccountTracks(a', log', key)
  {
    hide Tracks, LedgerOf, PolicyRules.PolicyOk, Debited;
    var e := log'[|log|];
    var mint, j := e.effect.mint, FindCap(a.policy.caps, e.effect.mint).value;
    forall k: nat | k < 8 && a.policy.caps[k].mint != DEFAULT_KEY
      ensures Tracks(a'.buckets[k], LedgerOf(log', key, a.policy.caps[k].mint), a.policy.caps[k])
    {
      LedgerStep(log, log', key, a.policy.caps[k].mint);
      PolicyRules.CapSlotIsFound(a.policy, k);
      if k == j {
        DebitTracks(a.buckets[k], LedgerOf(log, key, mint), a.policy.caps[k], e.effect.amount, e.time);
      } else {
        Unchanged(LedgerOf(log, key, a.policy.caps[k].mint));
      }
    }
    forall other | FindCap(a.policy.caps, other).None? ensures LedgerOf(log', key, other) == [] {
      LedgerStep(log, log', key, other);
    }
  }

  lemma Unchanged(l: Ledger)
    ensures l + [] == l
  {
  }

  /** A step that does not move this account's value. */
  lemma StillTracks(a: Account, a': Account, log: Log, log': Log, key: Pubkey)
    requires AccountTracks(a, log, key) && |log'| == |log| + 1 && log'[..|log|] == log
    requires !(log'[|log|].effect.Moved? && log'[|log|].account == key)
    requires a'.policy == a.policy && a'.buckets == a.buckets
    ensures AccountTracks(a', log', key)
  {
    hide Tracks, LedgerOf, FindCap;
    forall mint ensures LedgerOf(log', key, mint) == LedgerOf(log, key, mint) {
      LedgerStep(log, log', key, mint);
      Unchanged(LedgerOf(log, key, mint));
    }
  }

  lemma OnlyMovesDebit(a: Account, a': Account, e: Event)
    requires AccountChanged(a, a', e) && !e.effect.Moved?
    ensures a'.policy == a.policy && a'.buckets == a.buckets
  {
  }

  lemma AccountStepTracks(env: Env, m: Machine, m': Machine, key: Pubkey, now: I64)
    requires InOrder(env, m.w) && LogKnows(m.w, m.log) && AllTrack(m) && Advances(env, m, m', now) && key in m'.w.accounts
    ensures AccountTracks(m'.w.accounts[key], m'.log, key)
  {
    hide AccountTracks, AccountChanged, NonceChanged, Lifecycle.CheckAccountPda, SessionsStepped, LamportsStepped, InOrder,
      LogKnows, PolicyRules.PolicyOk, NewAccountOk;
    var e := m'.log[|m.log|];
    if key !in m.w.accounts {
      NewTracks(m'.w.accounts[key], m.w, m.log, key);
      StillTracks(m'.w.accounts[key], m'.w.accounts[key], m.log, m'.log, key);
    } else {
      OrderedPolicy(env, m.w, key);
      assert AccountTracks(m.w.accounts[key], m.log, key);
      if e.account == key && e.effect.Moved? {
        MovedDebits(m.w.accounts[key], m'.w.accounts[key], e);
        MoveTracks(m.w.accounts[key], m'.w.accounts[key], m.log, m'.log, key);
      } else {
        if m'.w.accounts[key] != m.w.accounts[key] { OnlyMovesDebit(m.w.accounts[key], m'.w.accounts[key], e); }
        StillTracks(m.w.accounts[key], m'.w.accounts[key], m.log, m'.log, key);
      }
    }
  }

  lemma OrderedPolicy(env: Env, w: World, key: Pubkey)
    requires InOrder(env, w) && key in w.accounts
    ensures PolicyRules.PolicyOk(w.accounts[key].policy)
  {
    hide SessionInOrder, PolicyRules.PolicyOk;
    assert AccountInOrder(env, w, key);
  }

  lemma MovedDebits(a: Account, a': Account, e: Event)
    requires AccountChanged(a, a', e) && e.effect.Moved?
    ensures Transfers.Debits(a, a', e.effect.mint, e.effect.amount, e.time)
  {
    hide Transfers.Debits, UnderThreshold;
  }

  lemma {:induction false} RunKnows(env: Env, run: seq<Timed>)
    ensures LogKnows(Run(env, run).w, Run(env, run).log)
    decreases |run|
  {
    hide Exec, Advances, InOrder;
    if run != [] {
      var n := |run| - 1;
      RunKnows(env, run[..n]);
      RunInOrder(env, run[..n]);
      var m := Run(env, run[..n]);
      if Exec(env, m, run[n].call, run[n].cx).Ok? {
        ExecSteps(env, m, run[n].call, run[n].cx);
        AdvanceKnows(env, m, Exec(env, m, run[n].call, run[n].cx).value, run[n].cx.now);
      }
    }
  }

  /** Over every run, with any clock, every bucket is what its account's ledger makes of it. */
  lemma {:induction false} RunTracks(env: Env, run: seq<Timed>)
    ensures AllTrack(Run(env, run))
    decreases |run|
  {
    hide Exec, Advances, InOrder, AccountTracks, LogKnows;
    if run != [] {
      var n := |run| - 1;
      RunTracks(env, run[..n]);
      RunKnows(env, run[..n]);
      RunInOrder(env, run[..n]);
      var m, m' := Run(env, run[..n]), Run(env, run);
      if Exec(env, m, run[n].call, run[n].cx).Ok? {
        ExecSteps(env, m, run[n].call, run[n].cx);
        forall key | key in m'.w.accounts ensures AccountTracks(m'.w.accounts[key], m'.log, key) {
          AccountStepTracks(env, m, m', key, run[n].cx.now);
        }
      }
    }
  }

  /**
    However many sessions an account has, everything that ever leaves it of a mint, by all of them and the
    root together, stays within its day cap unless a day was returned to, and within its 30-day cap unless
    a window was reopened. Within both, it is bounded in seconds too. A mint without a cap never leaves.
  */
  lemma AccountWideCaps(env: Env, run: seq<Timed>, key: Pubkey, mint: Pubkey)
    requires key in Run(env, run).w.accounts
    ensures var l := LedgerOf(Run(env, run).log, key, mint);
            var cap := PolicyRules.Lookup(Run(env, run).w.accounts[key].policy.caps, mint);
            if cap.None? then l == []
            else
              && CapsHold(l, cap.value) && (Steady(l) ==> Within(l, cap.value))
              && (Within(l, cap.value) ==> forall t :: WithinSeconds(l, cap.value, t))
  {
    hide Run, LedgerOf, Within, WithinSeconds, Refines, Follows, CapsHold, Steady;
    RunTracks(env, run);
    var m := Run(env, run);
    var caps, l := m.w.accounts[key].policy.caps, LedgerOf(m.log, key, mint);
    assert AccountTracks(m.w.accounts[key], m.log, key);
    var k := FindCap(caps, mint);
    if k.Some? {
      assert Tracks(m.w.accounts[key].buckets[k.value], l, caps[k.value]);
      if Steady(l) { SteadyWithin(l, caps[k.value]); }
      if Within(l, caps[k.value]) {
        forall t ensures WithinSeconds(l, caps[k.value], t) { SecondsFollow(l, caps[k.value], t); }
      }
    }
  }

  lemma SteadyWithin(l: Ledger, cap: MintCap)
    requires Steady(l) && CapsHold(l, cap)
    ensures Within(l, cap)
  {
    hide DayTotal, WindowTotal, DayRevisited, WindowReopened;
    SteadyClock(TimesOf(l));
  }

  /**
    And nothing is refused needlessly: while the days of an account's movements of a mint never go back,
    its limiter accepts an amount exactly if the day total and the 30-day total of the ledger leave room
    for it (away from the end of 64-bit time). `ClockLimits.DecidesExactly` says that no weaker condition on
    the times would do.
  */
  lemma LimiterDecides(env: Env, run: seq<Timed>, key: Pubkey, mint: Pubkey, amount: U64, now: I64)
    requires key in Run(env, run).w.accounts
    requires Steady(LedgerOf(Run(env, run).log, key, mint) + [Buckets.Entry(now, amount)])
    ensures var a := Run(env, run).w.accounts[key];
            Transfers.ChargeAccount(a, mint, amount, now).Ok? <==>
              && 0 <= now && FindCap(a.policy.caps, mint).Some?
              && Allowed(LedgerOf(Run(env, run).log, key, mint), a.policy.caps[FindCap(a.policy.caps, mint).value], amount, now)
              && BeforeTimeLimit(a.buckets[FindCap(a.policy.caps, mint).value])
  {
    hide Run, LedgerOf, Refines, Follows, CapsHold, Steady, FindCap, Debited, Allowed, BeforeTimeLimit;
    RunTracks(env, run);
    var m := Run(env, run);
    var a, l := m.w.accounts[key], LedgerOf(m.log, key, mint);
    assert AccountTracks(a, m.log, key);
    SteadySnoc(l, Buckets.Entry(now, amount));
    var k := FindCap(a.policy.caps, mint);
    if now < 0 {
      NoNegativeTime(a, mint, amount, now);
    } else if k.Some? {
      assert Tracks(a.buckets[k.value], l, a.policy.caps[k.value]);
      NotBehind(a.buckets[k.value], l, now);
      DebitRefines(a.buckets[k.value], l, a.policy.caps[k.value], amount, now);
    }
  }

  lemma NoNegativeTime(a: Account, mint: Pubkey, amount: U64, now: I64)
    requires now < 0
    ensures Transfers.ChargeAccount(a, mint, amount, now).Err?
  {
    hide FindCap, Roll, Sum;
  }

  // ---------------------------------------------------------------- a cluster clock that never goes back

  ghost predicate ClockRuns(run: seq<Timed>) {
    forall j, k :: 0 <= j < k < |run| ==> run[j].cx.now <= run[k].cx.now
  }

  ghost predicate LogSteady(log: Log, now: int) {
    && (forall j, k :: 0 <= j < k < |log| ==> log[j].time <= log[k].time)
    && (forall k :: 0 <= k < |log| ==> log[k].time <= now)
  }

  lemma {:induction false} LedgerSteady(log: Log, key: Pubkey, mint: Pubkey, now: int)
    requires LogSteady(log, now)
    ensures Steady(LedgerOf(log, key, mint))
    ensures forall k :: 0 <= k < |LedgerOf(log, key, mint)| ==> LedgerOf(log, key, mint)[k].time <= now
    decreases |log|
  {
    if log != [] {
      var n := |log| - 1;
      assert LogSteady(log[..n], log[n].time);
      LedgerSteady(log[..n], key, mint, log[n].time);
    }
  }

  lemma {:induction false} RunLogSteady(env: Env, run: seq<Timed>, now: int)
    requires ClockRuns(run) && (run != [] ==> run[|run| - 1].cx.now <= now)
    ensures LogSteady(Run(env, run).log, now)
    decreases |run|
  {
    hide Exec, Stepped, InOrder;
    if run != [] {
      var n := |run| - 1;
      if n > 0 { assert run[n - 1].cx.now <= run[n].cx.now; }
      RunLogSteady(env, run[..n], run[n].cx.now);
      RunInOrder(env, run[..n]);
      var m := Run(env, run[..n]);
      if Exec(env, m, run[n].call, run[n].cx).Ok? {
        ExecSteps(env, m, run[n].call, run[n].cx);
        LogStep(m.log, Run(env, run).log);
      }
    }
  }

  /** Under such a clock the days of every account's movements of every mint never go back. */
  lemma ClockIsSteady(env: Env, run: seq<Timed>, key: Pubkey, mint: Pubkey, amount: U64, now: I64)
    requires ClockRuns(run) && (run != [] ==> run[|run| - 1].cx.now <= now)
    ensures Steady(LedgerOf(Run(env, run).log, key, mint) + [Buckets.Entry(now, amount)])
    ensures Steady(LedgerOf(Run(env, run).log, key, mint))
  {
    hide Run, LedgerOf;
    RunLogSteady(env, run, now);
    LedgerSteady(Run(env, run).log, key, mint, now);
  }

  ghost predicate WithinSeconds(l: Ledger, cap: MintCap, t: int) {
    && TimeTotal(l, t, t + RING_DAYS * DAY_SECS) <= cap.per30d + cap.perDay
    && TimeTotal(l, t, t + DAY_SECS) <= 2 * cap.perDay
  }

  lemma SecondsFollow(l: Ledger, cap: MintCap, t: int)
    requires Within(l, cap)
    ensures WithinSeconds(l, cap, t)
  {
    RollingSeconds(l, cap, t);
  }
}
