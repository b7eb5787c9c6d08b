/**
  Which clocks the limiter's caps survive, exactly. `DaysHoldExactly` and `WindowsHoldExactly` say, in
  terms of the times alone, when every run stays within the day cap and the 30-day cap, and
  `DecidesExactly` when it decides every attempt as an unbounded ledger would.
*/
module ClockLimits {
  import opened Base
  import opened Buckets
  import opened Clocks

  // ---------------------------------------------------------------- accepted debits are some of the attempts

  ghost predicate HasTimes(run: seq<Attempt>, ts: seq<I64>) {
    |run| == |ts| && forall k :: 0 <= k < |run| ==> run[k].now == ts[k]
  }

  /** Where the accepted debits are in the run. */
  function Accepted(cap: MintCap, run: seq<Attempt>): (m: seq<nat>)
    ensures |m| == |RunDebits(cap, run).l|
    ensures forall x :: 0 <= x < |m| ==> m[x] < |run| && run[m[x]].now == RunDebits(cap, run).l[x].time
    ensures forall x, y :: 0 <= x < y < |m| ==> m[x] < m[y]
  {
    if run == [] then []
    else
      var n := |run| - 1;
      var before := Accepted(cap, run[..n]);
      if Debited(RunDebits(cap, run[..n]).b, cap, run[n].amount, run[n].now).Ok? then before + [n] else before
  }

  /** `us` is the part of `ts` at the increasing positions `m`. */
  ghost predicate PartAt(us: seq<int>, ts: seq<int>, m: seq<nat>) {
    && |m| == |us| && (forall x :: 0 <= x < |m| ==> m[x] < |ts| && ts[m[x]] == us[x])
    && (forall x, y :: 0 <= x < y < |m| ==> m[x] < m[y])
  }

  lemma PartReturns(us: seq<int>, ts: seq<int>, m: seq<nat>)
    requires PartAt(us, ts, m) && DayRevisited(us)
    ensures DayRevisited(ts)
  {
    hide Returns;
    var i, j, k :| 0 <= i < j < k < |us| && Returns(us[i], us[j], us[k]);
    assert m[i] < m[j] && m[j] < m[k];
    assert Returns(ts[m[i]], ts[m[j]], ts[m[k]]);
  }

  lemma PartReopens(us: seq<int>, ts: seq<int>, m: seq<nat>)
    requires PartAt(us, ts, m) && WindowReopened(us)
    ensures WindowReopened(ts)
  {
    hide Reopens;
    var i, j, k :| 0 <= i < j < k < |us| && Reopens(us[i], us[j], us[k]);
    assert m[i] < m[j] && m[j] < m[k];
    assert Reopens(ts[m[i]], ts[m[j]], ts[m[k]]);
  }

  lemma AcceptedPart(cap: MintCap, run: seq<Attempt>, ts: seq<I64>)
    requires HasTimes(run, ts)
    ensures PartAt(TimesOf(RunDebits(cap, run).l), ts, Accepted(cap, run))
  {
    hide RunDebits;
    var l, m := RunDebits(cap, run).l, Accepted(cap, run);
    forall x | 0 <= x < |m| ensures ts[m[x]] == TimesOf(l)[x] { assert run[m[x]].now == l[x].time; }
  }

  // ---------------------------------------------------------------- three debits and nothing else

  lemma {:induction false} SumNoMore(s: seq<U64>, t: seq<U64>)
    requires |s| == |t| && forall k :: 0 <= k < |s| ==> s[k] <= t[k]
    ensures Sum(s) <= Sum(t)
  {
    if s != [] { SumNoMore(s[..|s| - 1], t[..|t| - 1]); }
  }

  lemma {:induction false} SumOfNothing(s: seq<U64>)
    requires forall k :: 0 <= k < |s| ==> s[k] == 0
    ensures Sum(s) == 0
  {
    if s != [] { SumOfNothing(s[..|s| - 1]); }
  }

  lemma RolledSum(b: Bucket, now: I64)
    requires now >= 0
    ensures Sum(Roll(b, now).ring) <= Sum(b.ring)
    ensures Day(now) >= b.ringDayIndex + 30 ==> Sum(Roll(b, now).ring) == 0
  {
    hide Sum;
    SumNoMore(Roll(b, now).ring, b.ring);
    if Day(now) >= b.ringDayIndex + 30 { SumOfNothing(Roll(b, now).ring); }
  }

  /** The parts of a bucket that decide whether it accepts. */
  ghost predicate Stands(b: Bucket, day: int, spent: int, sum: int) {
    b.ringDayIndex == day >= 0 && b.dayStart == day * DAY_SECS && b.spentToday == spent && Sum(b.ring) <= sum
  }

  lemma AcceptsNew(b: Bucket, cap: MintCap, day: int, spent: int, sum: int, a: Attempt)
    requires Stands(b, day, spent, sum) && cap.mint != DEFAULT_KEY && a.now >= 0 && (day + 1) * DAY_SECS < I64_LIMIT
    requires day < Day(a.now) && a.amount <= cap.perTx && a.amount <= cap.perDay
    requires (if day + 30 <= Day(a.now) then 0 else sum) + a.amount <= cap.per30d
    ensures Debited(b, cap, a.amount, a.now).Ok?
    ensures Stands(Debited(b, cap, a.amount, a.now).value, Day(a.now), a.amount,
                   (if day + 30 <= Day(a.now) then 0 else sum) + a.amount)
  {
    hide Sum, ZeroSkipped;
    RolledSum(b, a.now);
    SlotNeverOverflows(b, a.amount, a.now);
    var r, slot := Roll(b, a.now).ring, Day(a.now) % RING_DAYS;
    SumUpdate(r, slot, r[slot] + a.amount);
    assert a.now - a.now % DAY_SECS == Day(a.now) * DAY_SECS;
  }

  lemma AcceptsOld(b: Bucket, cap: MintCap, day: int, spent: int, sum: int, a: Attempt)
    requires Stands(b, day, spent, sum) && cap.mint != DEFAULT_KEY && a.now >= 0 && (day + 1) * DAY_SECS < I64_LIMIT
    requires Day(a.now) <= day && a.amount <= cap.perTx && spent + a.amount <= cap.perDay && sum + a.amount <= cap.per30d
    ensures Debited(b, cap, a.amount, a.now).Ok?
    ensures Stands(Debited(b, cap, a.amount, a.now).value, day, spent + a.amount, sum + a.amount)
  {
    hide Sum, ZeroSkipped;
    SlotNeverOverflows(b, a.amount, a.now);
    var r, slot := Roll(b, a.now).ring, Day(a.now) % RING_DAYS;
    SumUpdate(r, slot, r[slot] + a.amount);
  }

  /** Three attempts that the limiter accepts, the middle one of nothing; all others ask for too much. */
  ghost predicate ThreeDebits(cap: MintCap, run: seq<Attempt>, i: nat, j: nat, k: nat) {
    && i < j < k < |run| && cap.mint != DEFAULT_KEY
    && (forall x :: 0 <= x < |run| && x != i && x != j && x != k ==> run[x].amount > cap.perTx)
    && 0 <= Day(run[i].now) < Day(run[j].now) && 0 <= Day(run[k].now) < Day(run[j].now) && Recordable(run[j].now)
    && run[j].amount == 0
    && run[i].amount <= cap.perTx && run[i].amount <= cap.perDay && run[i].amount <= cap.per30d
    && run[k].amount <= cap.perTx && run[k].amount <= cap.perDay
    && (if Day(run[i].now) + 30 <= Day(run[j].now) then run[k].amount else run[i].amount + run[k].amount) <= cap.per30d
  }

  function EntryOf(a: Attempt): Entry { Entry(a.now, a.amount) }

  lemma RefusesMuch(o: RunState, cap: MintCap, a: Attempt)
    requires a.amount > cap.perTx
    ensures Attempted(o, cap, a) == o
  {
    hide Roll, Sum;
  }

  /** What has been accepted after `n` attempts. */
  ghost predicate Progress(o: RunState, run: seq<Attempt>, i: nat, j: nat, k: nat, n: nat)
    requires i < j < k < |run|
  {
    var p, q, r := run[i], run[j], run[k];
    if n <= i then o == RunState(EMPTY_BUCKET, [])
    else if n <= j then o.l == [EntryOf(p)] && Stands(o.b, Day(p.now), p.amount, p.amount)
    else if n <= k then
      o.l == [EntryOf(p), EntryOf(q)] && Stands(o.b, Day(q.now), 0, if Day(p.now) + 30 <= Day(q.now) then 0 else p.amount)
    else o.l == [EntryOf(p), EntryOf(q), EntryOf(r)]
  }

  lemma EmptyStands()
    ensures Stands(EMPTY_BUCKET, 0, 0, 0)
  {
    SumOfNothing(EMPTY_BUCKET.ring);
  }

  lemma ThreeStep(cap: MintCap, run: seq<Attempt>, i: nat, j: nat, k: nat, n: nat, o: RunState)
    requires ThreeDebits(cap, run, i, j, k) && n < |run| && Progress(o, run, i, j, k, n)
    ensures Progress(Attempted(o, cap, run[n]), run, i, j, k, n + 1)
  {
    hide Debited, Stands, Sum, Zeros;
    var p, q, r := run[i], run[j], run[k];
    if n == i {
      EmptyStands();
      if Day(p.now) > 0 { AcceptsNew(o.b, cap, 0, 0, 0, p); } else { AcceptsOld(o.b, cap, 0, 0, 0, p); }
      assert [] + [EntryOf(p)] == [EntryOf(p)];
    } else if n == j {
      AcceptsNew(o.b, cap, Day(p.now), p.amount, p.amount, q);
    } else if n == k {
      AcceptsOld(o.b, cap, Day(q.now), 0, if Day(p.now) + 30 <= Day(q.now) then 0 else p.amount, r);
    } else {
      RefusesMuch(o, cap, run[n]);
    }
  }

  lemma {:induction false} ThreeProgress(cap: MintCap, run: seq<Attempt>, i: nat, j: nat, k: nat, n: nat)
    requires ThreeDebits(cap, run, i, j, k) && n <= |run|
    ensures Progress(RunDebits(cap, run[..n]), run, i, j, k, n)
    decreases n
  {
    hide Progress, Attempted;
    if n == 0 {
      NoProgress(cap, run, i, j, k);
    } else {
      ThreeProgress(cap, run, i, j, k, n - 1);
      ThreeStep(cap, run, i, j, k, n - 1, RunDebits(cap, run[..n - 1]));
      assert run[..n][..n - 1] == run[..n - 1];
    }
  }

  lemma NoProgress(cap: MintCap, run: seq<Attempt>, i: nat, j: nat, k: nat)
    requires i < j < k < |run|
    ensures Progress(RunDebits(cap, run[..0]), run, i, j, k, 0)
  {
  }

  lemma ThreeAreAccepted(cap: MintCap, run: seq<Attempt>, i: nat, j: nat, k: nat)
    requires ThreeDebits(cap, run, i, j, k)
    ensures RunDebits(cap, run).l == [EntryOf(run[i]), EntryOf(run[j]), EntryOf(run[k])]
  {
    hide RunDebits;
    ThreeProgress(cap, run, i, j, k, |run|);
    assert run[..|run|] == run;
  }

  // ---------------------------------------------------------------- exactly when the caps hold

  ghost predicate DaysKept(cap: MintCap, run: seq<Attempt>) { DaysWithin(RunDebits(cap, run).l, cap) }

  ghost predicate WindowsKept(cap: MintCap, run: seq<Attempt>) { WindowsWithin(RunDebits(cap, run).l, cap) }

  const SOME_MINT: Pubkey := [1] + Zeros(31)

  /** One unit at `i` and at `k`, nothing at `j`, and too much everywhere else. */
  function ThreeOf(ts: seq<I64>, i: nat, j: nat, k: nat): (run: seq<Attempt>)
    ensures HasTimes(run, ts)
    ensures forall x :: 0 <= x < |ts| ==> run[x].amount == if x == i || x == k then 1 else if x == j then 0 else 2
  {
    if ts == [] then []
    else
      var n := |ts| - 1;
      ThreeOf(ts[..n], i, j, k) + [Attempt(if n == i || n == k then 1 else if n == j then 0 else 2, ts[n])]
  }

  lemma ThreeDayTotal(a: Entry, b: Entry, c: Entry, d: int)
    ensures DayTotal([a, b, c], d) == (if Day(a.time) == d then a.amount else 0)
              + (if Day(b.time) == d then b.amount else 0) + (if Day(c.time) == d then c.amount else 0)
  {
    hide DayTotal;
    assert [] + [a] == [a] && [a] + [b] == [a, b] && [a, b] + [c] == [a, b, c];
    NothingAfter([], d, d - 1);
    DayTotalSnoc([], a, d);
    DayTotalSnoc([a], b, d);
    DayTotalSnoc([a, b], c, d);
  }

  predicate InWindow(e: Entry, lo: int) { lo <= Day(e.time) < lo + 30 }

  lemma ThreeWindowTotal(a: Entry, b: Entry, c: Entry, lo: int)
    ensures WindowTotal([a, b, c], lo, 30) == (if InWindow(a, lo) then a.amount else 0)
              + (if InWindow(b, lo) then b.amount else 0) + (if InWindow(c, lo) then c.amount else 0)
  {
    hide WindowTotal;
    assert [] + [a] == [a] && [a] + [b] == [a, b] && [a, b] + [c] == [a, b, c];
    EmptyWindow([], lo, 30, lo - 1);
    WindowTotalSnoc([], a, lo, 30);
    WindowTotalSnoc([a], b, lo, 30);
    WindowTotalSnoc([a, b], c, lo, 30);
  }

  lemma ReturnBreaksDay(ts: seq<I64>, i: nat, j: nat, k: nat)
    requires i < j < k < |ts| && Returns(ts[i], ts[j], ts[k])
    ensures HasTimes(ThreeOf(ts, i, j, k), ts) && !DaysKept(MintCap(SOME_MINT, 1, 1, 2), ThreeOf(ts, i, j, k))
  {
    hide RunDebits, ThreeOf, Zeros, DayTotal;
    var cap, run := MintCap(SOME_MINT, 1, 1, 2), ThreeOf(ts, i, j, k);
    assert SOME_MINT[0] != DEFAULT_KEY[0];
    ThreeAreAccepted(cap, run, i, j, k);
    ThreeDayTotal(EntryOf(run[i]), EntryOf(run[j]), EntryOf(run[k]), Day(ts[i]));
  }

  lemma ReopeningBreaksWindow(ts: seq<I64>, i: nat, j: nat, k: nat)
    requires i < j < k < |ts| && Reopens(ts[i], ts[j], ts[k])
    ensures HasTimes(ThreeOf(ts, i, j, k), ts) && !WindowsKept(MintCap(SOME_MINT, 1, 1, 1), ThreeOf(ts, i, j, k))
  {
    hide RunDebits, ThreeOf, Zeros, WindowTotal;
    var cap, run := MintCap(SOME_MINT, 1, 1, 1), ThreeOf(ts, i, j, k);
    assert SOME_MINT[0] != DEFAULT_KEY[0];
    ThreeAreAccepted(cap, run, i, j, k);
    ThreeWindowTotal(EntryOf(run[i]), EntryOf(run[j]), EntryOf(run[k]), Min(Day(ts[i]), Day(ts[k])));
  }

  /**
    The day cap holds for all caps and all amounts attempted at these times exactly if no day is left for
    a later one and then returned to.
  */
  lemma DaysHoldExactly(ts: seq<I64>)
    ensures (forall cap, run :: HasTimes(run, ts) ==> DaysKept(cap, run)) <==> !DayRevisited(ts)
  {
    hide HasTimes, Returns, CapsHold, PartAt, Follows;
    if DayRevisited(ts) {
      var i, j, k :| 0 <= i < j < k < |ts| && Returns(ts[i], ts[j], ts[k]);
      ReturnBreaksDay(ts, i, j, k);
    } else {
      forall cap, run | HasTimes(run, ts) ensures DaysKept(cap, run) { NoReturnKeepsDays(cap, run, ts); }
    }
  }

  lemma NoReturnKeepsDays(cap: MintCap, run: seq<Attempt>, ts: seq<I64>)
    requires HasTimes(run, ts) && !DayRevisited(ts)
    ensures DaysKept(cap, run)
  {
    hide RunDebits, DayRevisited, DaysWithin, WindowsWithin, WindowReopened, PartAt;
    RunHolds(cap, run);
    AcceptedPart(cap, run, ts);
    if DayRevisited(TimesOf(RunDebits(cap, run).l)) {
      PartReturns(TimesOf(RunDebits(cap, run).l), ts, Accepted(cap, run));
    }
  }

  /**
    The cap on every 30 consecutive days holds for all caps and all amounts attempted at these times
    exactly if no day is left by 30 days or more and then one less than 30 days from it is returned to.
  */
  lemma WindowsHoldExactly(ts: seq<I64>)
    ensures (forall cap, run :: HasTimes(run, ts) ==> WindowsKept(cap, run)) <==> !WindowReopened(ts)
  {
    hide HasTimes, Reopens, CapsHold, PartAt, Follows;
    if WindowReopened(ts) {
      var i, j, k :| 0 <= i < j < k < |ts| && Reopens(ts[i], ts[j], ts[k]);
      ReopeningBreaksWindow(ts, i, j, k);
    } else {
      forall cap, run | HasTimes(run, ts) ensures WindowsKept(cap, run) { NoReopeningKeepsWindows(cap, run, ts); }
    }
  }

  lemma NoReopeningKeepsWindows(cap: MintCap, run: seq<Attempt>, ts: seq<I64>)
    requires HasTimes(run, ts) && !WindowReopened(ts)
    ensures WindowsKept(cap, run)
  {
    hide RunDebits, WindowReopened, WindowsWithin, DaysWithin, DayRevisited, PartAt;
    RunHolds(cap, run);
    AcceptedPart(cap, run, ts);
    if WindowReopened(TimesOf(RunDebits(cap, run).l)) {
      PartReopens(TimesOf(RunDebits(cap, run).l), ts, Accepted(cap, run));
    }
  }

  // ---------------------------------------------------------------- exactly when the ledger decides

  /** An earlier day comes after a later one. */
  predicate GoesBack(x: int, z: int) { 0 <= Day(z) < Day(x) && Recordable(x) }

  ghost predicate DayWentBack(ts: seq<int>) {
    exists i, k :: 0 <= i < k < |ts| && GoesBack(ts[i], ts[k])
  }

  /** The attempt is accepted exactly if the ledger of what was accepted before it leaves room. */
  predicate AttemptDecided(o: RunState, cap: MintCap, a: Attempt) {
    Debited(o.b, cap, a.amount, a.now).Ok? <==>
      0 <= a.now && Allowed(o.l, cap, a.amount, a.now) && BeforeTimeLimit(o.b)
  }

  ghost predicate DecidedByLedger(cap: MintCap, run: seq<Attempt>) {
    forall n: nat :: n < |run| ==> AttemptDecided(RunDebits(cap, run[..n]), cap, run[n])
  }

  /** The bucket mirrors the ledger and stands on the day of its last entry. */
  ghost predicate InStep(o: RunState) {
    Refines(o.b, o.l) && o.b.ringDayIndex == if o.l == [] then 0 else Day(o.l[|o.l| - 1].time)
  }

  lemma StepDecided(o: RunState, cap: MintCap, a: Attempt)
    requires InStep(o) && (o.l != [] ==> !GoesBack(o.l[|o.l| - 1].time, a.now))
    ensures AttemptDecided(o, cap, a) && InStep(Attempted(o, cap, a))
  {
    hide Mirrors, DayTotal, WindowTotal, UpTo, Roll, Sum, Allowed;
    if a.now >= 0 && Recordable(o.b.dayStart) {
      DebitRefines(o.b, o.l, cap, a.amount, a.now);
      RollRefines(o.b, o.l, a.now);
    }
  }

  lemma LastNotAfter(cap: MintCap, run: seq<Attempt>)
    requires run != [] && !DayWentBack(TimesAttempted(run))
    ensures var l := RunDebits(cap, run[..|run| - 1]).l; l != [] ==> !GoesBack(l[|l| - 1].time, run[|run| - 1].now)
  {
    hide RunDebits, Accepted, GoesBack;
    var n := |run| - 1;
    var l, m, ts := RunDebits(cap, run[..n]).l, Accepted(cap, run[..n]), TimesAttempted(run);
    if l != [] { assert ts[m[|l| - 1]] == l[|l| - 1].time && ts[n] == run[n].now; }
  }

  lemma {:induction false} StaysInStep(cap: MintCap, run: seq<Attempt>)
    requires !DayWentBack(TimesAttempted(run))
    ensures InStep(RunDebits(cap, run)) && DecidedByLedger(cap, run)
    decreases |run|
  {
    hide InStep, Attempted, AttemptDecided, GoesBack, DayWentBack;
    if run == [] {
      EmptyInStep();
    } else {
      var n := |run| - 1;
      var o, ts := RunDebits(cap, run[..n]), TimesAttempted(run);
      NotBackBefore(ts, n);
      StaysInStep(cap, run[..n]);
      LastNotAfter(cap, run);
      StepDecided(o, cap, run[n]);
      forall k: nat | k < |run| ensures AttemptDecided(RunDebits(cap, run[..k]), cap, run[k]) {
        if k < n { assert run[..n][..k] == run[..k] && run[..n][k] == run[k]; }
      }
    }
  }

  lemma EmptyInStep()
    ensures InStep(RunState(EMPTY_BUCKET, []))
  {
    EmptyRefines();
  }

  function TimesAttempted(run: seq<Attempt>): (ts: seq<int>)
    ensures |ts| == |run| && forall k :: 0 <= k < |run| ==> ts[k] == run[k].now
    ensures run != [] ==> ts[..|run| - 1] == TimesAttempted(run[..|run| - 1])
  {
    seq(|run|, k requires 0 <= k < |run| => run[k].now)
  }

  lemma NotBackBefore(ts: seq<int>, n: nat)
    requires !DayWentBack(ts) && n <= |ts|
    ensures !DayWentBack(ts[..n])
  {
    hide GoesBack;
    forall i, k | 0 <= i < k < n ensures !GoesBack(ts[..n][i], ts[..n][k]) {
      assert ts[..n][i] == ts[i] && ts[..n][k] == ts[k];
    }
  }

  /** One unit on the later day leaves no room on the earlier one, though the ledger would. */
  lemma {:induction false} OneAccepted(cap: MintCap, run: seq<Attempt>, i: nat, k: nat, n: nat)
    requires i < k < |run| && n <= k && cap.mint != DEFAULT_KEY && cap.perTx == cap.perDay == cap.per30d == 1
    requires run[i].amount == 1 && 0 <= Day(run[i].now) && forall x :: 0 <= x < k && x != i ==> run[x].amount == 2
    ensures n <= i ==> RunDebits(cap, run[..n]) == RunState(EMPTY_BUCKET, [])
    ensures i < n ==> var o := RunDebits(cap, run[..n]); o.l == [EntryOf(run[i])] && Stands(o.b, Day(run[i].now), 1, 1)
    decreases n
  {
    hide Attempted, Stands;
    if n > 0 {
      OneAccepted(cap, run, i, k, n - 1);
      var o := RunDebits(cap, run[..n - 1]);
      assert run[..n][..n - 1] == run[..n - 1] && run[..n][n - 1] == run[n - 1];
      if n - 1 == i { FirstAccepted(cap, run[i]); } else { RefusesMuch(o, cap, run[n - 1]); }
    }
  }

  lemma FirstAccepted(cap: MintCap, a: Attempt)
    requires cap.mint != DEFAULT_KEY && cap.perTx == cap.perDay == cap.per30d == 1 && a.amount == 1 && 0 <= Day(a.now)
    ensures var o := Attempted(RunState(EMPTY_BUCKET, []), cap, a);
            o.l == [EntryOf(a)] && Stands(o.b, Day(a.now), 1, 1)
  {
    hide Debited, Stands, Sum, Zeros;
    EmptyStands();
    if Day(a.now) > 0 { AcceptsNew(EMPTY_BUCKET, cap, 0, 0, 0, a); } else { AcceptsOld(EMPTY_BUCKET, cap, 0, 0, 0, a); }
    assert [] + [EntryOf(a)] == [EntryOf(a)];
  }

  lemma BackIsUndecided(ts: seq<I64>, i: nat, k: nat)
    requires i < k < |ts| && GoesBack(ts[i], ts[k])
    ensures HasTimes(ThreeOf(ts, i, k, k), ts) && !DecidedByLedger(MintCap(SOME_MINT, 1, 1, 1), ThreeOf(ts, i, k, k))
  {
    hide RunDebits, ThreeOf, Zeros, AttemptDecided;
    var cap, run := MintCap(SOME_MINT, 1, 1, 1), ThreeOf(ts, i, k, k);
    assert SOME_MINT[0] != DEFAULT_KEY[0];
    OneAccepted(cap, run, i, k, k);
    RefusedThoughAllowed(RunDebits(cap, run[..k]), cap, run[i], run[k]);
  }

  lemma RefusedThoughAllowed(o: RunState, cap: MintCap, first: Attempt, a: Attempt)
    requires cap.mint != DEFAULT_KEY && cap.perTx == cap.perDay == cap.per30d == 1 && first.amount == a.amount == 1
    requires o.l == [EntryOf(first)] && Stands(o.b, Day(first.now), 1, 1) && GoesBack(first.now, a.now)
    ensures !AttemptDecided(o, cap, a)
  {
    hide Sum, DayTotal, WindowTotal, ZeroSkipped;
    OnlyLater(first, a.now);
  }

  lemma OnlyLater(first: Attempt, now: int)
    requires Day(now) < Day(first.now)
    ensures DayTotal([EntryOf(first)], Day(now)) == 0 && WindowTotal([EntryOf(first)], Day(now) - 29, 30) == 0
  {
    hide DayTotal, WindowTotal;
    assert [] + [EntryOf(first)] == [EntryOf(first)];
    NothingAfter([], Day(now), Day(now) - 1);
    EmptyWindow([], Day(now) - 29, 30, Day(now) - 30);
    DayTotalSnoc([], EntryOf(first), Day(now));
    WindowTotalSnoc([], EntryOf(first), Day(now) - 29, 30);
  }

  /**
    For all caps and all amounts attempted at these times, every attempt is decided exactly by the ledger
    of what was accepted before it, if and only if no attempt is on an earlier day than one before it.
  */
  lemma DecidesExactly(ts: seq<I64>)
    ensures (forall cap, run :: HasTimes(run, ts) ==> DecidedByLedger(cap, run)) <==> !DayWentBack(ts)
  {
    hide GoesBack, DecidedByLedger, InStep;
    if DayWentBack(ts) {
      var i, k :| 0 <= i < k < |ts| && GoesBack(ts[i], ts[k]);
      BackIsUndecided(ts, i, k);
    } else {
      forall cap, run | HasTimes(run, ts) ensures DecidedByLedger(cap, run) {
        assert TimesAttempted(run) == ts;
        StaysInStep(cap, run);
      }
    }
  }

  // ---------------------------------------------------------------- two runs that go over

  /** A calendar day goes over its cap after the clock has gone to the next day and back. */
  lemma BackwardClockExceedsDay(mint: Pubkey)
    requires mint != DEFAULT_KEY
    ensures var cap := MintCap(mint, 100, 100, 1000);
            var run := [Attempt(100, 10), Attempt(0, DAY_SECS), Attempt(100, 10)];
            DayTotal(RunDebits(cap, run).l, 0) == 200 > cap.perDay
  {
    hide RunDebits, DayTotal;
    var cap, run := MintCap(mint, 100, 100, 1000), [Attempt(100, 10), Attempt(0, DAY_SECS), Attempt(100, 10)];
    ThreeAreAccepted(cap, run, 0, 1, 2);
    ThreeDayTotal(EntryOf(run[0]), EntryOf(run[1]), EntryOf(run[2]), 0);
  }

  /** And 30 consecutive days go over theirs after the clock has gone 30 days on and one back. */
  lemma BackwardClockExceedsWindow(mint: Pubkey)
    requires mint != DEFAULT_KEY
    ensures var cap := MintCap(mint, 100, 100, 100);
            var run := [Attempt(60, 10), Attempt(0, 30 * DAY_SECS), Attempt(100, 29 * DAY_SECS)];
            WindowTotal(RunDebits(cap, run).l, 0, 30) == 160 > cap.per30d
  {
    hide RunDebits, WindowTotal;
    var cap, run := MintCap(mint, 100, 100, 100), [Attempt(60, 10), Attempt(0, 30 * DAY_SECS), Attempt(100, 29 * DAY_SECS)];
    ThreeAreAccepted(cap, run, 0, 1, 2);
    ThreeWindowTotal(EntryOf(run[0]), EntryOf(run[1]), EntryOf(run[2]), 0);
  }
}
