/**
  Accounting over runs: a session's stored spending is what the log says it spent since it was opened,
  everything charged to an account is accounted for by its live sessions, its closed ones and the root,
  and every lamport balance is what was paid in less what was paid out.
*/
module RunLedger {
  import opened Base
  import opened Buckets
  import Wire
  import opened State
  import PolicyRules
  import opened Sessions
  import opened Transfers
  import opened World
  import opened Steps
  import opened Runs
  import opened RunCaps

  // ---------------------------------------------------------------- one session

  /** What the session has moved of a mint since it was last opened. */
  function SpentSince(log: Log, s: Pubkey, mint: Pubkey): nat {
    if log == [] then 0
    else
      var n := |log| - 1;
      var before := SpentSince(log[..n], s, mint);
      match log[n].effect
      case Granted(t, isNew) => if t == s && isNew then 0 else before
      case Moved(spender, m, _, _, amount) => if spender == Some(s) && m == mint then before + amount else before
      case _ => before
  }

  ghost predicate SessionsBooked(m: Machine) {
    forall s, mint :: s in m.w.sessions ==> SpentOf(m.w.sessions[s], mint) == SpentSince(m.log, s, mint)
  }

  lemma SpentSinceStep(log: Log, log': Log, s: Pubkey, mint: Pubkey)
    requires |log'| == |log| + 1 && log'[..|log|] == log
    ensures SpentSince(log', s, mint) ==
            match log'[|log|].effect
            case Granted(t, isNew) => if t == s && isNew then 0 else SpentSince(log, s, mint)
            case Moved(spender, m, _, _, amount) =>
              SpentSince(log, s, mint) + if spender == Some(s) && m == mint then amount else 0
            case _ => SpentSince(log, s, mint)
  {
    LogStep(log, log');
  }

  lemma SpendsBooked(s: Session, s': Session, mint: Pubkey, amount: U64, other: Pubkey)
    requires Spends(s, s', mint, amount)
    ensures SpentOf(s', other) == SpentOf(s, other) + if other == mint then amount else 0
    ensures FindCap(s'.caps, other) == FindCap(s.caps, other)
  {
    var k := FindCap(s.caps, other);
    if k.Some? && other != mint {
      assert s.caps[k.value].mint != s.caps[FindCap(s.caps, mint).value].mint;
    }
  }

  lemma GrantedBooked(s: Session, s': Session, a: Account, key: Pubkey, now: I64, b: Wire.GrantBody, mint: Pubkey)
    requires SessionGranted(s, s', a, key, now, b)
    ensures SpentOf(s', mint) == SpentOf(s, mint)
    ensures FindCap(s.caps, mint).Some? ==> FindCap(s'.caps, mint) == FindCap(s.caps, mint)
  {
    hide SpentOf, FindCap, SessionOk, PolicyRules.Lookup, LifetimeOf;
    assert OverlaidAt(s, s', b.caps, b.lifetimeCap, mint);
  }

  lemma BlankSpent(mint: Pubkey)
    ensures SpentOf(BLANK_SESSION, mint) == 0
  {
    hide EmptySlots, EmptyAmounts, Zeros;
    var s := BLANK_SESSION;
    assert s.caps == EmptySlots(8);
    assert forall k :: 0 <= k < 8 ==> s.caps[k].mint == DEFAULT_KEY;
  }

  lemma SessionBooked(env: Env, m: Machine, m': Machine, now: I64, s: Pubkey, mint: Pubkey)
    requires SessionsBooked(m) && Advances(env, m, m', now) && s in m'.w.sessions
    ensures SpentOf(m'.w.sessions[s], mint) == SpentSince(m'.log, s, mint)
  {
    hide SpentOf, SpentSince, Spends, SessionGranted, AccountsStepped, LamportsStepped, CheckSessionPda, PolicyRules.Bit;
    var e := m'.log[|m.log|];
    SpentSinceStep(m.log, m'.log, s, mint);
    if e.effect.Granted? && e.effect.session == s {
      GrantedBooked(PriorSession(m.w, s), m'.w.sessions[s], m.w.accounts[e.account], e.account, e.time,
                    e.ceremony.value.action.grant, mint);
      BlankSpent(mint);
    } else if e.effect.Moved? && e.effect.spender == Some(s) {
      SpendsBooked(m.w.sessions[s], m'.w.sessions[s], e.effect.mint, e.effect.amount, mint);
    } else {
      assert s in m.w.sessions && m'.w.sessions[s] == m.w.sessions[s];
    }
  }

  // ---------------------------------------------------------------- all sessions of an account

  function Contribution(s: Session, key: Pubkey, mint: Pubkey): nat { if s.account == key then SpentOf(s, mint) else 0 }

  /** The stored spending of the given sessions, as far as they belong to the account. */
  ghost function LiveSpent(sessions: map<Pubkey, Session>, keys: set<Pubkey>, key: Pubkey, mint: Pubkey): nat
    requires keys <= sessions.Keys
  {
    if keys == {} then 0
    else
      var s :| s in keys;
      Contribution(sessions[s], key, mint) + LiveSpent(sessions, keys - {s}, key, mint)
  }

  lemma {:induction false} LivePick(sessions: map<Pubkey, Session>, keys: set<Pubkey>, key: Pubkey, mint: Pubkey, s: Pubkey)
    requires keys <= sessions.Keys && s in keys
    ensures LiveSpent(sessions, keys, key, mint)
         == Contribution(sessions[s], key, mint) + LiveSpent(sessions, keys - {s}, key, mint)
    decreases keys
  {
    hide Contribution;
    var t :| t in keys && LiveSpent(sessions, keys, key, mint)
                          == Contribution(sessions[t], key, mint) + LiveSpent(sessions, keys - {t}, key, mint);
    if t != s {
      LivePick(sessions, keys - {t}, key, mint, s);
      LivePick(sessions, keys - {s}, key, mint, t);
      assert keys - {t} - {s} == keys - {s} - {t};
    }
  }

  lemma {:induction false} LiveSame(sessions: map<Pubkey, Session>, sessions': map<Pubkey, Session>, keys: set<Pubkey>,
                                    key: Pubkey, mint: Pubkey)
    requires keys <= sessions.Keys && keys <= sessions'.Keys && forall s :: s in keys ==> sessions[s] == sessions'[s]
    ensures LiveSpent(sessions, keys, key, mint) == LiveSpent(sessions', keys, key, mint)
    decreases keys
  {
    hide Contribution;
    if keys != {} {
      var s :| s in keys;
      LivePick(sessions, keys, key, mint, s);
      LivePick(sessions', keys, key, mint, s);
      LiveSame(sessions, sessions', keys - {s}, key, mint);
    }
  }

  function Held(sessions: map<Pubkey, Session>, s: Pubkey, key: Pubkey, mint: Pubkey): nat {
    if s in sessions then Contribution(sessions[s], key, mint) else 0
  }

  /** Writing or removing one session changes the sum by that session's share. */
  lemma LiveUpdate(sessions: map<Pubkey, Session>, sessions': map<Pubkey, Session>, s: Pubkey, key: Pubkey, mint: Pubkey)
    requires sessions.Keys - {s} == sessions'.Keys - {s}
    requires forall t :: t in sessions && t in sessions' && t != s ==> sessions'[t] == sessions[t]
    ensures LiveSpent(sessions', sessions'.Keys, key, mint) + Held(sessions, s, key, mint)
         == LiveSpent(sessions, sessions.Keys, key, mint) + Held(sessions', s, key, mint)
  {
    hide Contribution;
    var rest := sessions.Keys - {s};
    LiveSame(sessions, sessions', rest, key, mint);
    if s in sessions { LivePick(sessions, sessions.Keys, key, mint, s); } else { assert rest == sessions.Keys; }
    if s in sessions' { LivePick(sessions', sessions'.Keys, key, mint, s); } else { assert rest == sessions'.Keys; }
  }

  /** What the root moved itself, and what closed sessions had spent when they were closed. */
  function Settled(log: Log, key: Pubkey, mint: Pubkey): nat {
    if log == [] then 0
    else
      var n := |log| - 1;
      var before := Settled(log[..n], key, mint);
      if log[n].account != key then before
      else
        match log[n].effect
        case Moved(spender, m, _, _, amount) => if spender.None? && m == mint then before + amount else before
        case Closed(_, last, _, _) => before + SpentOf(last, mint)
        case _ => before
  }

  lemma SettledStep(log: Log, log': Log, key: Pubkey, mint: Pubkey)
    requires |log'| == |log| + 1 && log'[..|log|] == log
    ensures Settled(log', key, mint) == Settled(log, key, mint) +
            match log'[|log|].effect
            case Moved(spender, m, _, _, amount) => if log'[|log|].account == key && spender.None? && m == mint then amount else 0
            case Closed(_, last, _, _) => if log'[|log|].account == key then SpentOf(last, mint) else 0
            case _ => 0
  {
    LogStep(log, log');
  }

  lemma TotalStep(log: Log, log': Log, key: Pubkey, mint: Pubkey)
    requires |log'| == |log| + 1 && log'[..|log|] == log
    ensures Total(LedgerOf(log', key, mint)) == Total(LedgerOf(log, key, mint))
              + if Concerns(log'[|log|], key, mint) then log'[|log|].effect.amount else 0
  {
    var l, e := LedgerOf(log, key, mint), log'[|log|];
    LedgerStep(log, log', key, mint);
    if Concerns(e, key, mint) { Snoc(l, Buckets.Entry(e.time, e.effect.amount)); } else { Unchanged(l); }
  }

  /** Everything ever charged to the account is spent by a live session, was spent by a closed one, or was moved by the root. */
  ghost predicate Balanced(m: Machine, key: Pubkey, mint: Pubkey) {
    Total(LedgerOf(m.log, key, mint)) == Settled(m.log, key, mint) + LiveSpent(m.w.sessions, m.w.sessions.Keys, key, mint)
  }

  lemma StepBalanced(env: Env, m: Machine, m': Machine, now: I64, key: Pubkey, mint: Pubkey)
    requires Balanced(m, key, mint) && Advances(env, m, m', now)
    ensures Balanced(m', key, mint)
  {
    hide Settled, LedgerOf, Total, LiveSpent, SpentOf, Spends, SessionGranted, AccountsStepped, LamportsStepped,
      CheckSessionPda, PolicyRules.Bit;
    var e := m'.log[|m.log|];
    SettledStep(m.log, m'.log, key, mint);
    TotalStep(m.log, m'.log, key, mint);
    match e.effect
    case Granted(s, isNew) => GrantBalanced(env, m, m', e, s, key, mint);
    case Closed(s, _, _, _) =>
      LiveUpdate(m.w.sessions, m'.w.sessions, s, key, mint);
    case Moved(spender, _, _, _, amount) =>
      if spender.Some? { MoveBalanced(env, m, m', e, spender.value, key, mint); }
    case _ =>
  }

  lemma GrantBalanced(env: Env, m: Machine, m': Machine, e: Event, s: Pubkey, key: Pubkey, mint: Pubkey)
    requires SessionsStepped(env, m.w, m'.w, e) && e.effect.Granted? && e.effect.session == s
    ensures LiveSpent(m'.w.sessions, m'.w.sessions.Keys, key, mint) == LiveSpent(m.w.sessions, m.w.sessions.Keys, key, mint)
  {
    hide LiveSpent, SpentOf, CheckSessionPda, OverlaidAt, SessionGranted;
    LiveUpdate(m.w.sessions, m'.w.sessions, s, key, mint);
    var a, b := m.w.accounts[e.account], e.ceremony.value.action.grant;
    GrantedBooked(PriorSession(m.w, s), m'.w.sessions[s], a, e.account, e.time, b, mint);
    BlankSpent(mint);
    GrantedAccount(PriorSession(m.w, s), m'.w.sessions[s], a, e.account, e.time, b);
  }

  lemma GrantedAccount(s: Session, s': Session, a: Account, key: Pubkey, now: I64, b: Wire.GrantBody)
    requires SessionGranted(s, s', a, key, now, b)
    ensures s'.account == key
  {
    hide OverlaidAt, TableOk, PolicyRules.SubMask;
  }

  lemma MoveBalanced(env: Env, m: Machine, m': Machine, e: Event, s: Pubkey, key: Pubkey, mint: Pubkey)
    requires SessionsStepped(env, m.w, m'.w, e) && e.effect.Moved? && e.effect.spender == Some(s)
    ensures LiveSpent(m'.w.sessions, m'.w.sessions.Keys, key, mint) == LiveSpent(m.w.sessions, m.w.sessions.Keys, key, mint)
              + if e.account == key && e.effect.mint == mint then e.effect.amount else 0
  {
    hide LiveSpent, SpentOf, Spends, PolicyRules.Bit;
    LiveUpdate(m.w.sessions, m'.w.sessions, s, key, mint);
    SpendsBooked(m.w.sessions[s], m'.w.sessions[s], e.effect.mint, e.effect.amount, mint);
    SpendKeepsAccount(m.w.sessions[s], m'.w.sessions[s], e.effect.mint, e.effect.amount);
  }

  lemma {:induction false} RunBooked(env: Env, run: seq<Timed>)
    ensures SessionsBooked(Run(env, run))
    ensures forall key, mint :: Balanced(Run(env, run), key, mint)
    decreases |run|
  {
    hide Exec, Advances, InOrder, SpentOf, SpentSince, Balanced;
    if run == [] {
      forall key, mint ensures Balanced(Run(env, []), key, mint) { NothingBalanced(env, key, mint); }
    } else {
      var n := |run| - 1;
      RunBooked(env, run[..n]);
      RunInOrder(env, run[..n]);
      var m := Run(env, run[..n]);
      if Exec(env, m, run[n].call, run[n].cx).Ok? {
        ExecSteps(env, m, run[n].call, run[n].cx);
        var m' := Exec(env, m, run[n].call, run[n].cx).value;
        forall s, mint | s in m'.w.sessions ensures SpentOf(m'.w.sessions[s], mint) == SpentSince(m'.log, s, mint) {
          SessionBooked(env, m, m', run[n].cx.now, s, mint);
        }
        forall key, mint ensures Balanced(m', key, mint) { StepBalanced(env, m, m', run[n].cx.now, key, mint); }
      }
    }
  }

  lemma NothingBalanced(env: Env, key: Pubkey, mint: Pubkey)
    ensures Balanced(Run(env, []), key, mint)
  {
    assert GENESIS.sessions.Keys == {};
  }

  /**
    A session has spent of each mint exactly what it moved since it was opened, across re-grants, and
    never more than the mint's lifetime cap.
  */
  lemma SessionLedger(env: Env, run: seq<Timed>, s: Pubkey, mint: Pubkey)
    requires s in Run(env, run).w.sessions
    ensures SpentOf(Run(env, run).w.sessions[s], mint) == SpentSince(Run(env, run).log, s, mint)
    ensures SpentSince(Run(env, run).log, s, mint) <= LifetimeOf(Run(env, run).w.sessions[s], mint)
  {
    hide Run, InOrder, SpentSince, LifetimeOf, SpentOf;
    RunBooked(env, run);
    RunInOrder(env, run);
    SessionWithinLifetime(env, Run(env, run).w, s, mint);
  }

  lemma SessionWithinLifetime(env: Env, w: World, s: Pubkey, mint: Pubkey)
    requires InOrder(env, w) && s in w.sessions
    ensures SpentOf(w.sessions[s], mint) <= LifetimeOf(w.sessions[s], mint)
  {
    hide AccountInOrder, CheckSessionPda, SessionOk, FindCap;
    assert SessionInOrder(env, w, s);
    var session := w.sessions[s];
    OrderedPolicy(env, w, session.account);
    if FindCap(session.caps, mint).Some? { SessionChain(session, session.account, w.accounts[session.account].policy, mint); }
  }

  /** Nothing charged to an account is lost or counted twice. */
  lemma ChargesAreAccounted(env: Env, run: seq<Timed>, key: Pubkey, mint: Pubkey)
    ensures var m := Run(env, run);
            Total(LedgerOf(m.log, key, mint))
            == Settled(m.log, key, mint) + LiveSpent(m.w.sessions, m.w.sessions.Keys, key, mint)
  {
    hide Run, LedgerOf, Settled, LiveSpent;
    RunBooked(env, run);
    assert Balanced(Run(env, run), key, mint);
  }

  // ---------------------------------------------------------------- slots stay

  ghost predicate OpenThroughout(log: Log, s: Pubkey, from: nat) {
    forall k :: from <= k < |log| ==> !ClosesSession(log[k], s)
  }

  predicate ClosesSession(e: Event, s: Pubkey) { e.effect.Closed? && e.effect.session == s }

  lemma StepKeepsSlot(env: Env, w: World, w': World, e: Event, s: Pubkey, mint: Pubkey)
    requires SessionsStepped(env, w, w', e) && s in w.sessions && !ClosesSession(e, s)
    ensures s in w'.sessions
    ensures FindCap(w.sessions[s].caps, mint).Some? ==>
              FindCap(w'.sessions[s].caps, mint) == FindCap(w.sessions[s].caps, mint)
  {
    hide FindCap, Spends, SessionGranted, CheckSessionPda, PolicyRules.Bit;
    if e.effect.Granted? && e.effect.session == s {
      GrantedBooked(PriorSession(w, s), w'.sessions[s], w.accounts[e.account], e.account, e.time,
                    e.ceremony.value.action.grant, mint);
    } else if e.effect.Moved? && e.effect.spender == Some(s) {
      SpendsBooked(w.sessions[s], w'.sessions[s], e.effect.mint, e.effect.amount, mint);
    }
  }

  lemma {:induction false} LogGrows(env: Env, run: seq<Timed>, i: nat)
    requires i <= |run|
    ensures |Run(env, run[..i]).log| <= |Run(env, run).log|
    ensures Run(env, run).log[..|Run(env, run[..i]).log|] == Run(env, run[..i]).log
    decreases |run|
  {
    hide Exec, Stepped, InOrder;
    if i == |run| {
      assert run[..i] == run;
    } else {
      var n := |run| - 1;
      assert run[..n][..i] == run[..i];
      LogGrows(env, run[..n], i);
      RunInOrder(env, run[..n]);
      var m := Run(env, run[..n]);
      if Exec(env, m, run[n].call, run[n].cx).Ok? {
        ExecSteps(env, m, run[n].call, run[n].cx);
        PrefixTwice(Run(env, run).log, |m.log|, |Run(env, run[..i]).log|);
      }
    }
  }

  lemma PrefixTwice(log: Log, n: nat, k: nat)
    requires k <= n <= |log|
    ensures log[..n][..k] == log[..k]
  {
  }

  /** A granted mint keeps its slot until the session is closed. */
  lemma {:induction false} SlotsStay(env: Env, run: seq<Timed>, i: nat, s: Pubkey, mint: Pubkey)
    requires i <= |run| && s in Run(env, run[..i]).w.sessions
    requires FindCap(Run(env, run[..i]).w.sessions[s].caps, mint).Some?
    requires OpenThroughout(Run(env, run).log, s, |Run(env, run[..i]).log|)
    ensures s in Run(env, run).w.sessions
    ensures FindCap(Run(env, run).w.sessions[s].caps, mint) == FindCap(Run(env, run[..i]).w.sessions[s].caps, mint)
    decreases |run|
  {
    hide Exec, InOrder, FindCap, AccountsStepped, SessionsStepped, LamportsStepped;
    if i == |run| {
      assert run[..i] == run;
    } else {
      var n := |run| - 1;
      assert run[..n][..i] == run[..i];
      RunInOrder(env, run[..n]);
      var m := Run(env, run[..n]);
      if Exec(env, m, run[n].call, run[n].cx).Ok? {
        ExecSteps(env, m, run[n].call, run[n].cx);
        var m' := Exec(env, m, run[n].call, run[n].cx).value;
        LogGrows(env, run[..n], i);
        OpenBefore(m.log, m'.log, s, |Run(env, run[..i]).log|);
        SlotsStay(env, run[..n], i, s, mint);
        StepKeepsSlot(env, m.w, m'.w, m'.log[|m.log|], s, mint);
      } else {
        SlotsStay(env, run[..n], i, s, mint);
      }
    }
  }

  lemma OpenBefore(log: Log, log': Log, s: Pubkey, from: nat)
    requires |log'| == |log| + 1 && log'[..|log|] == log && from <= |log| && OpenThroughout(log', s, from)
    ensures OpenThroughout(log, s, from) && !ClosesSession(log'[|log|], s)
  {
    LogStep(log, log');
    forall k | from <= k < |log| ensures !ClosesSession(log[k], s) { assert !ClosesSession(log'[k], s); }
  }

  // ---------------------------------------------------------------- lamports

  /** Everything that ever reached an address: deposits, native transfers of any account, and refunded rent. */
  function PaidIn(log: Log, key: Pubkey): nat {
    if log == [] then 0
    else
      var n := |log| - 1;
      PaidIn(log[..n], key) +
        match log[n].effect
        case Moved(_, _, native, destination, amount) => if native && destination == key then amount else 0
        case Deposited(amount) => if log[n].account == key then amount else 0
        case Closed(_, _, refundTo, rent) => if refundTo == key then rent else 0
        case _ => 0
  }

  /** Everything that ever left it. */
  function PaidOut(log: Log, key: Pubkey): nat {
    if log == [] then 0
    else
      var n := |log| - 1;
      PaidOut(log[..n], key) +
        match log[n].effect
        case Moved(_, _, native, _, amount) => if native && log[n].account == key then amount else 0
        case Withdrawn(amount) => if log[n].account == key then amount else 0
        case Closed(s, _, _, rent) => if s == key then rent else 0
        case _ => 0
  }

  lemma PaidStep(log: Log, log': Log, key: Pubkey)
    requires |log'| == |log| + 1 && log'[..|log|] == log
    ensures PaidIn(log', key) == PaidIn(log, key) +
              match log'[|log|].effect
              case Moved(_, _, native, destination, amount) => if native && destination == key then amount else 0
              case Deposited(amount) => if log'[|log|].account == key then amount else 0
              case Closed(_, _, refundTo, rent) => if refundTo == key then rent else 0
              case _ => 0
    ensures PaidOut(log', key) == PaidOut(log, key) +
              match log'[|log|].effect
              case Moved(_, _, native, _, amount) => if native && log'[|log|].account == key then amount else 0
              case Withdrawn(amount) => if log'[|log|].account == key then amount else 0
              case Closed(s, _, _, rent) => if s == key then rent else 0
              case _ => 0
  {
    LogStep(log, log');
  }

  lemma StepPaid(env: Env, m: Machine, m': Machine, now: I64, key: Pubkey)
    requires Balance(m.w, key) + PaidOut(m.log, key) == PaidIn(m.log, key) && Advances(env, m, m', now)
    ensures Balance(m'.w, key) + PaidOut(m'.log, key) == PaidIn(m'.log, key)
  {
    hide PaidIn, PaidOut, AccountsStepped, SessionsStepped;
    PaidStep(m.log, m'.log, key);
  }

  /** Every balance is what reached the address less what left it: native transfers neither make nor lose lamports. */
  lemma {:induction false} LamportsAreConserved(env: Env, run: seq<Timed>, key: Pubkey)
    ensures Balance(Run(env, run).w, key) + PaidOut(Run(env, run).log, key) == PaidIn(Run(env, run).log, key)
    decreases |run|
  {
    hide Exec, Advances, InOrder, PaidIn, PaidOut, Balance;
    if run == [] {
      NothingPaid(env, key);
    } else {
      var n := |run| - 1;
      LamportsAreConserved(env, run[..n], key);
      RunInOrder(env, run[..n]);
      var m := Run(env, run[..n]);
      if Exec(env, m, run[n].call, run[n].cx).Ok? {
        ExecSteps(env, m, run[n].call, run[n].cx);
        StepPaid(env, m, Exec(env, m, run[n].call, run[n].cx).value, run[n].cx.now, key);
      }
    }
  }

  lemma NothingPaid(env: Env, key: Pubkey)
    ensures Balance(Run(env, []).w, key) == PaidOut(Run(env, []).log, key) == PaidIn(Run(env, []).log, key) == 0
  {
  }

  /** What an account has ever sent of native SOL, and of wrapped SOL. */
  function SolOut(log: Log, key: Pubkey, native: bool): nat {
    if log == [] then 0
    else
      var n := |log| - 1;
      SolOut(log[..n], key, native) +
        if Concerns(log[n], key, NATIVE_MINT) && log[n].effect.native == native then log[n].effect.amount else 0
  }

  /** Both kinds of SOL are charged to one and the same ledger. */
  lemma {:induction false} OneSolBudget(log: Log, key: Pubkey)
    ensures Total(LedgerOf(log, key, NATIVE_MINT)) == SolOut(log, key, true) + SolOut(log, key, false)
    decreases |log|
  {
    hide Total, LedgerOf;
    if log == [] {
      NoTotal(key);
    } else {
      OneSolBudget(log[..|log| - 1], key);
      TotalStep(log[..|log| - 1], log, key, NATIVE_MINT);
    }
  }

  lemma NoTotal(key: Pubkey)
    ensures Total(LedgerOf([], key, NATIVE_MINT)) == 0
  {
  }

  /** A native movement is logged under the wrapped-SOL mint. */
  lemma {:induction false} NativeIsCharged(env: Env, run: seq<Timed>, i: nat)
    requires i < |Run(env, run).log| && Run(env, run).log[i].effect.Moved?
    ensures var e := Run(env, run).log[i]; e.effect.native ==> Concerns(e, e.account, NATIVE_MINT)
    decreases |run|
  {
    hide Exec, InOrder, SessionsStepped, LamportsStepped;
    var n := |run| - 1;
    RunInOrder(env, run[..n]);
    var m := Run(env, run[..n]);
    if Exec(env, m, run[n].call, run[n].cx).Ok? {
      ExecSteps(env, m, run[n].call, run[n].cx);
      var m' := Exec(env, m, run[n].call, run[n].cx).value;
      LogStep(m.log, m'.log);
      if i < |m.log| { NativeIsCharged(env, run[..n], i); } else { NativeMint(env, m.w, m'.w, m'.log[i]); }
    } else {
      NativeIsCharged(env, run[..n], i);
    }
  }

  lemma NativeMint(env: Env, w: World, w': World, e: Event)
    requires AccountsStepped(env, w, w', e) && e.effect.Moved?
    ensures e.effect.native ==> e.effect.mint == NATIVE_MINT
  {
    hide NonceChanged, Debits, UnderThreshold;
  }

  /** What the address had paid out before it became a smart account. */
  function OutBefore(log: Log, key: Pubkey): nat {
    if log == [] then 0
    else
      var n := |log| - 1;
      if log[n].account == key && log[n].effect.Created? then PaidOut(log[..n], key) else OutBefore(log[..n], key)
  }

  ghost predicate OutflowCharged(log: Log, key: Pubkey) { PaidOut(log, key) == OutBefore(log, key) + SolOut(log, key, true) }

  lemma OutStep(log: Log, log': Log, key: Pubkey)
    requires |log'| == |log| + 1 && log'[..|log|] == log
    ensures var e := log'[|log|];
            && OutBefore(log', key) == (if e.account == key && e.effect.Created? then PaidOut(log, key) else OutBefore(log, key))
            && SolOut(log', key, true) == SolOut(log, key, true)
                 + if Concerns(e, key, NATIVE_MINT) && e.effect.native then e.effect.amount else 0
  {
    LogStep(log, log');
  }

  lemma {:induction false} NothingSent(w: World, log: Log, key: Pubkey)
    requires LogKnows(w, log) && key !in w.accounts
    ensures SolOut(log, key, true) == 0
    decreases |log|
  {
    if log != [] {
      var n := |log| - 1;
      assert EventKnown(w, log[n]);
      KnowsPrefix(w, log, n);
      NothingSent(w, log[..n], key);
    }
  }

  lemma StepCharged(env: Env, m: Machine, m': Machine, now: I64, key: Pubkey)
    requires InOrder(env, m.w) && LogKnows(m.w, m.log) && Advances(env, m, m', now) && key in m'.w.accounts
    requires key in m.w.accounts ==> OutflowCharged(m.log, key)
    ensures OutflowCharged(m'.log, key)
  {
    hide InOrder, LogKnows, PaidIn, PaidOut, OutBefore, SolOut, AccountChanged, NonceChanged, NewAccountOk, Spends,
      SessionGranted, CheckSessionPda, PolicyRules.Bit;
    var e := m'.log[|m.log|];
    PaidStep(m.log, m'.log, key);
    OutStep(m.log, m'.log, key);
    AddressesDiffer(env, m.w);
    if key !in m.w.accounts { NothingSent(m.w, m.log, key); }
    if e.effect.Moved? { NativeMint(env, m.w, m'.w, e); }
  }

  /**
    Once an address is a smart account, what leaves it in lamports is exactly what native transfers were
    charged to its wrapped-SOL ledger; the rest of that ledger is wrapped SOL.
  */
  lemma {:induction false} NativeOutflow(env: Env, run: seq<Timed>, key: Pubkey)
    requires key in Run(env, run).w.accounts
    ensures var log := Run(env, run).log;
            && PaidOut(log, key) == OutBefore(log, key) + SolOut(log, key, true)
            && Total(LedgerOf(log, key, NATIVE_MINT)) == PaidOut(log, key) - OutBefore(log, key) + SolOut(log, key, false)
    decreases |run|
  {
    hide Exec, Advances, InOrder, LogKnows, PaidOut, OutBefore, SolOut, Total, LedgerOf;
    var n := |run| - 1;
    RunInOrder(env, run[..n]);
    RunKnows(env, run[..n]);
    var m := Run(env, run[..n]);
    if key in m.w.accounts { NativeOutflow(env, run[..n], key); }
    if Exec(env, m, run[n].call, run[n].cx).Ok? {
      ExecSteps(env, m, run[n].call, run[n].cx);
      StepCharged(env, m, Exec(env, m, run[n].call, run[n].cx).value, run[n].cx.now, key);
    }
    OneSolBudget(Run(env, run).log, key);
  }

  /**
    A token transfer is charged to its own mint: it goes from a token account of the vault to one of
    somebody else, both of the mint the event records, and moves no lamports.
  */
  lemma TokensMove(env: Env, m: Machine, call: Call, cx: Context)
    requires Exec(env, m, call, cx).Ok? && call.CallTransfer? && call.transfer.mint.Some?
    ensures var m', t := Exec(env, m, call, cx).value, call.transfer;
            && |m'.log| == |m.log| + 1 && m'.log[|m.log|].account == call.key && m'.w.lamports == m.w.lamports
            && m'.log[|m.log|].effect == Moved(call.spender, t.mint.value, false, t.destination.key, t.amount)
            && t.tokenTransferOk && t.source.Some? && IsTokenAccount(t.source.value, t.mint.value, call.key)
            && exists owner :: owner != call.key && IsTokenAccount(t.destination, t.mint.value, owner)
  {
    hide Charge, CeremonyOf, BodyOf, CheckTokens;
    TokensLeaveTheVault(call.key, call.transfer.mint.value, call.transfer);
  }

  /** A native transfer leaves the vault at its rent floor or above and hands over exactly what it took. */
  lemma NativeMoves(env: Env, m: Machine, call: Call, cx: Context)
    requires InOrder(env, m.w) && Exec(env, m, call, cx).Ok? && call.CallTransfer? && call.transfer.mint.None?
    ensures var m', to := Exec(env, m, call, cx).value, call.transfer.destination.key;
            && |m'.log| == |m.log| + 1 && m'.log[|m.log|].account == call.key
            && m'.log[|m.log|].effect == Moved(call.spender, NATIVE_MINT, true, to, call.transfer.amount)
    ensures var w, w', to := m.w, Exec(env, m, call, cx).value.w, call.transfer.destination.key;
            && Balance(w', call.key) == Balance(w, call.key) - call.transfer.amount >= env.rentFloor
            && Balance(w', to) == Balance(w, to) + call.transfer.amount
            && forall other :: other != call.key && other != to ==> Balance(w', other) == Balance(w, other)
  {
    hide InOrder, Charge, CeremonyOf, BodyOf;
  }
}
