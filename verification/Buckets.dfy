/**
  The per-mint spend limiter. A 30-slot ring stands in for an unbounded ledger of accepted debits:
  `Refines` says how, `DebitRefines` that every debit keeps it and decides exactly by the
  mathematical day and 30-day totals, and `Within` what the caps then bound over runs whose clock never
  goes back. `ClockLimits` says exactly which other clocks they survive.
*/
module Buckets {
  import opened Base

  const DAY_SECS: int := 86400
  const RING_DAYS: int := 30

  datatype MintCap = MintCap(mint: Pubkey, perTx: U64, perDay: U64, per30d: U64)

  const EMPTY_CAP := MintCap(DEFAULT_KEY, 0, 0, 0)

  type Ring = r: seq<U64> | |r| == 30 witness Zeros(30)

  datatype Bucket = Bucket(dayStart: I64, spentToday: U64, ringDayIndex: I64, ring: Ring)

  const EMPTY_BUCKET := Bucket(0, 0, 0, Zeros(30))

  /** The index of the slot that holds `mint`; the unused-slot sentinel is never found. */
  function FindCap(caps: seq<MintCap>, mint: Pubkey): (r: Option<nat>)
    ensures r.Some? ==> r.value < |caps| && caps[r.value].mint == mint && mint != DEFAULT_KEY
    ensures r.None? ==> mint == DEFAULT_KEY || forall k :: 0 <= k < |caps| ==> caps[k].mint != mint
  {
    if caps == [] then None
    else if caps[0].mint != DEFAULT_KEY && caps[0].mint == mint then Some(0)
    else
      var rest := FindCap(caps[1..], mint);
      if rest.None? then None else Some(rest.value + 1)
  }

  function Sum(s: seq<U64>): (t: nat) {
    if s == [] then 0 else Sum(s[..|s| - 1]) + s[|s| - 1]
  }

  // ---------------------------------------------------------------- debit

  function Min(a: int, b: int): int { if a < b then a else b }

  /** How many days before `day`, less than 30, slot `k` was last written. */
  function Age(day: int, k: int): int { (day - k) % RING_DAYS }

  /** The ring with the slots of the last `gap` days up to `day` zeroed, all of them if `gap` is large. */
  function ZeroSkipped(ring: Ring, day: int, gap: int): Ring {
    seq(30, k requires 0 <= k < 30 => if Age(day, k) < gap then 0 else ring[k])
  }

  /** The bucket rolled forward to `now`; a clock that goes backwards rolls nothing. */
  function Roll(b: Bucket, now: I64): Bucket
    requires now >= 0
  {
    var day := now / DAY_SECS;
    var newDay := now >= b.dayStart + DAY_SECS;
    Bucket(
      if newDay then now - now % DAY_SECS else b.dayStart,
      if newDay then 0 else b.spentToday,
      if day > b.ringDayIndex then day else b.ringDayIndex,
      if day > b.ringDayIndex then ZeroSkipped(b.ring, day, day - b.ringDayIndex) else b.ring)
  }

  /** The bucket with `amount` charged to today's total and to the slot of `day`. */
  function Recorded(c: Bucket, day: int, amount: U64): Bucket
    requires c.spentToday + amount < U64_LIMIT && c.ring[day % RING_DAYS] + amount < U64_LIMIT
  {
    var slot := day % RING_DAYS;
    Bucket(c.dayStart, c.spentToday + amount, c.ringDayIndex, c.ring[slot := c.ring[slot] + amount])
  }

  /** The bucket after a debit: every check is made before anything is charged. */
  function Debited(b: Bucket, cap: MintCap, amount: U64, now: I64): Result<Bucket> {
    var day := now / DAY_SECS;
    :- Require(now >= 0, InvalidAccountData);
    :- Require(cap.mint != DEFAULT_KEY, CapExceeded);
    :- Require(amount <= cap.perTx, CapExceeded);
    :- Require(b.dayStart + DAY_SECS < I64_LIMIT, Overflow);
    :- Require(day - b.ringDayIndex < I64_LIMIT, Overflow);
    var c := Roll(b, now);
    :- Require(c.spentToday + amount < U64_LIMIT, Overflow);
    :- Require(c.spentToday + amount <= cap.perDay, CapExceeded);
    :- Require(Sum(c.ring) + amount < U64_LIMIT, Overflow);
    :- Require(Sum(c.ring) + amount <= cap.per30d, CapExceeded);
    :- Require(c.ring[day % RING_DAYS] + amount < U64_LIMIT, Overflow);
    Ok(Recorded(c, day, amount))
  }

  lemma {:induction false} SumAtLeast(s: seq<U64>, k: nat)
    requires k < |s|
    ensures s[k] <= Sum(s)
  {
    if k < |s| - 1 { SumAtLeast(s[..|s| - 1], k); }
  }

  lemma {:induction false} SumUpdate(s: seq<U64>, k: nat, v: U64)
    requires k < |s|
    ensures Sum(s[k := v]) == Sum(s) - s[k] + v
  {
    var n := |s| - 1;
    if k < n {
      assert s[k := v][..n] == s[..n][k := v];
      SumUpdate(s[..n], k, v);
    } else {
      assert s[k := v][..n] == s[..n];
    }
  }

  /** In no state whatsoever does the last checked addition of `debit` overflow. */
  lemma SlotNeverOverflows(b: Bucket, amount: U64, now: I64)
    requires now >= 0 && Sum(Roll(b, now).ring) + amount < U64_LIMIT
    ensures Roll(b, now).ring[now / DAY_SECS % RING_DAYS] + amount < U64_LIMIT
  {
    SumAtLeast(Roll(b, now).ring, now / DAY_SECS % RING_DAYS);
  }

  // ---------------------------------------------------------------- the ledger

  /** One accepted debit. */
  datatype Entry = Entry(time: int, amount: nat)
  type Ledger = seq<Entry>

  function Day(time: int): int { time / DAY_SECS }

  function DayTotal(l: Ledger, d: int): nat {
    if l == [] then 0
    else DayTotal(l[..|l| - 1], d) + if Day(l[|l| - 1].time) == d then l[|l| - 1].amount else 0
  }

  /** The total of the `n` days from `lo`. */
  function WindowTotal(l: Ledger, lo: int, n: nat): nat {
    if n == 0 then 0 else WindowTotal(l, lo, n - 1) + DayTotal(l, lo + n - 1)
  }

  /** The total of the half-open time interval. */
  function TimeTotal(l: Ledger, from: int, to: int): nat {
    if l == [] then 0
    else TimeTotal(l[..|l| - 1], from, to) + if from <= l[|l| - 1].time < to then l[|l| - 1].amount else 0
  }

  function Total(l: Ledger): nat {
    if l == [] then 0 else Total(l[..|l| - 1]) + l[|l| - 1].amount
  }

  /** No entry is later than day `d`. */
  ghost predicate UpTo(l: Ledger, d: int) { forall k :: 0 <= k < |l| ==> Day(l[k].time) <= d }

  lemma Snoc(l: Ledger, e: Entry)
    ensures (l + [e])[..|l + [e]| - 1] == l && (l + [e])[|l + [e]| - 1] == e
  {
  }

  lemma DayTotalSnoc(l: Ledger, e: Entry, d: int)
    ensures DayTotal(l + [e], d) == DayTotal(l, d) + if Day(e.time) == d then e.amount else 0
  {
    Snoc(l, e);
  }

  lemma {:induction false} WindowTotalSnoc(l: Ledger, e: Entry, lo: int, n: nat)
    ensures WindowTotal(l + [e], lo, n) == WindowTotal(l, lo, n) + if lo <= Day(e.time) < lo + n then e.amount else 0
    decreases n
  {
    hide DayTotal;
    if n > 0 {
      WindowTotalSnoc(l, e, lo, n - 1);
      DayTotalSnoc(l, e, lo + n - 1);
    }
  }

  lemma {:induction false} WindowSplit(l: Ledger, lo: int, n: nat, m: nat)
    ensures WindowTotal(l, lo, n + m) == WindowTotal(l, lo, n) + WindowTotal(l, lo + n, m)
    decreases m
  {
    hide DayTotal;
    if m > 0 { WindowSplit(l, lo, n, m - 1); }
  }

  lemma {:induction false} NothingAfter(l: Ledger, d: int, last: int)
    requires UpTo(l, last) && d > last
    ensures DayTotal(l, d) == 0
    decreases |l|
  {
    if l != [] { NothingAfter(l[..|l| - 1], d, last); }
  }

  lemma {:induction false} EmptyWindow(l: Ledger, lo: int, n: nat, last: int)
    requires UpTo(l, last) && lo > last
    ensures WindowTotal(l, lo, n) == 0
    decreases n
  {
    hide DayTotal;
    if n > 0 {
      EmptyWindow(l, lo, n - 1, last);
      NothingAfter(l, lo + n - 1, last);
    }
  }

  /** A window that reaches beyond the last day holds no more than the one that ends on it. */
  lemma LaterWindow(l: Ledger, lo: int, last: int)
    requires UpTo(l, last) && last - 29 <= lo <= last
    ensures WindowTotal(l, lo, 30) <= WindowTotal(l, last - 29, 30)
  {
    hide WindowTotal;
    WindowSplit(l, lo, last - lo + 1, 29 - (last - lo));
    EmptyWindow(l, last + 1, 29 - (last - lo), last);
    WindowSplit(l, last - 29, lo - (last - 29), last - lo + 1);
  }

  // ---------------------------------------------------------------- the ring is a window of the ledger

  /** The slots of `n` consecutive days from `lo`, summed. */
  function RotatedSum(ring: Ring, lo: int, n: nat): nat {
    if n == 0 then 0 else RotatedSum(ring, lo, n - 1) + ring[(lo + n - 1) % RING_DAYS]
  }

  lemma {:induction false} RotatedHead(ring: Ring, lo: int, n: nat)
    ensures RotatedSum(ring, lo, n + 1) == ring[lo % RING_DAYS] + RotatedSum(ring, lo + 1, n)
    decreases n
  {
    if n > 0 { RotatedHead(ring, lo, n - 1); }
  }

  lemma {:induction false} RotatedPrefix(ring: Ring, n: nat)
    requires n <= 30
    ensures RotatedSum(ring, 0, n) == Sum(ring[..n])
    decreases n
  {
    if n > 0 {
      RotatedPrefix(ring, n - 1);
      assert ring[..n][..n - 1] == ring[..n - 1];
    }
  }

  /** Thirty consecutive days visit every slot once, wherever they start. */
  lemma {:induction false} RotatedIsSum(ring: Ring, lo: int)
    ensures RotatedSum(ring, lo, 30) == Sum(ring)
    decreases if lo < 0 then -lo else lo
  {
    if lo == 0 {
      RotatedPrefix(ring, 30);
      assert ring[..30] == ring;
    } else {
      var near := if lo > 0 then lo - 1 else lo;
      RotatedHead(ring, near, 29);
      assert near % RING_DAYS == (near + 30) % RING_DAYS;
      assert RotatedSum(ring, near + 1, 30) == RotatedSum(ring, near + 1, 29) + ring[(near + 30) % RING_DAYS];
      RotatedIsSum(ring, if lo > 0 then lo - 1 else lo + 1);
    }
  }

  /** Every slot of the 30 days up to `last` holds that day's total. */
  ghost predicate Mirrors(ring: Ring, l: Ledger, last: int) {
    forall d {:trigger DayTotal(l, d)} :: last - 30 < d <= last ==> ring[d % RING_DAYS] == DayTotal(l, d)
  }

  lemma {:induction false} MirrorWindow(ring: Ring, l: Ledger, last: int, n: nat)
    requires Mirrors(ring, l, last) && n <= 30
    ensures RotatedSum(ring, last - 29, n) == WindowTotal(l, last - 29, n)
    decreases n
  {
    hide DayTotal;
    if n > 0 { MirrorWindow(ring, l, last, n - 1); }
  }

  lemma MirrorSum(ring: Ring, l: Ledger, last: int)
    requires Mirrors(ring, l, last)
    ensures Sum(ring) == WindowTotal(l, last - 29, 30)
  {
    MirrorWindow(ring, l, last, 30);
    RotatedIsSum(ring, last - 29);
  }

  /** The bucket is the ledger's last 30 days. */
  ghost predicate Refines(b: Bucket, l: Ledger) {
    && b.ringDayIndex >= 0 && b.dayStart == b.ringDayIndex * DAY_SECS
    && UpTo(l, b.ringDayIndex)
    && b.spentToday == DayTotal(l, b.ringDayIndex)
    && Mirrors(b.ring, l, b.ringDayIndex)
  }

  lemma EmptyRefines()
    ensures Refines(EMPTY_BUCKET, [])
  {
  }

  lemma AgeOfDay(day: int, d: int)
    requires day - 30 < d <= day
    ensures 0 <= d % RING_DAYS < 30 && Age(day, d % RING_DAYS) == day - d
  {
  }

  lemma ZeroedMirrors(ring: Ring, l: Ledger, last: int, day: int)
    requires Mirrors(ring, l, last) && UpTo(l, last) && day > last
    ensures Mirrors(ZeroSkipped(ring, day, day - last), l, day)
  {
    hide DayTotal, Age;
    forall d | day - 30 < d <= day
      ensures ZeroSkipped(ring, day, day - last)[d % RING_DAYS] == DayTotal(l, d)
    {
      AgeOfDay(day, d);
      if d > last { NothingAfter(l, d, last); }
    }
  }

  lemma RollRefines(b: Bucket, l: Ledger, now: I64)
    requires Refines(b, l) && now >= b.dayStart
    ensures Refines(Roll(b, now), l) && Roll(b, now).ringDayIndex == Day(now)
  {
    hide DayTotal, ZeroSkipped;
    var day := Day(now);
    assert now - now % DAY_SECS == day * DAY_SECS;
    if day > b.ringDayIndex {
      ZeroedMirrors(b.ring, l, b.ringDayIndex, day);
      NothingAfter(l, day, b.ringDayIndex);
    }
  }

  /** What the limiter decides, in terms of the ledger alone. */
  predicate Allowed(l: Ledger, cap: MintCap, amount: U64, now: I64) {
    && cap.mint != DEFAULT_KEY && amount <= cap.perTx
    && DayTotal(l, Day(now)) + amount <= cap.perDay
    && WindowTotal(l, Day(now) - 29, 30) + amount <= cap.per30d
  }

  /** The recorded day's end must still be a 64-bit time. */
  predicate BeforeTimeLimit(b: Bucket) { b.dayStart + DAY_SECS < I64_LIMIT }

  /** The debit decides exactly by the ledger's totals, and an accepted one is recorded. */
  lemma DebitRefines(b: Bucket, l: Ledger, cap: MintCap, amount: U64, now: I64)
    requires Refines(b, l) && now >= b.dayStart
    ensures Debited(b, cap, amount, now).Ok? <==> Allowed(l, cap, amount, now) && BeforeTimeLimit(b)
    ensures Debited(b, cap, amount, now).Ok? ==>
              Refines(Debited(b, cap, amount, now).value, l + [Entry(now, amount)])
  {
    hide DayTotal, WindowTotal, Roll, Sum;
    var c := Roll(b, now);
    var day := Day(now);
    RollRefines(b, l, now);
    MirrorSum(c.ring, l, day);
    if c.ring[day % RING_DAYS] + amount >= U64_LIMIT { SumAtLeast(c.ring, day % RING_DAYS); }
    if Debited(b, cap, amount, now).Ok? { RecordRefines(c, l, amount, now); }
  }

  /** What a refusal is called, in terms of the ledger; a sum that leaves 64 bits is named before the cap it also exceeds. */
  lemma RefusalIsNamed(b: Bucket, l: Ledger, cap: MintCap, amount: U64, now: I64)
    requires Refines(b, l) && now >= b.dayStart && Debited(b, cap, amount, now).Err?
    ensures Debited(b, cap, amount, now).error
         == if cap.mint == DEFAULT_KEY || amount > cap.perTx then CapExceeded
            else if !BeforeTimeLimit(b) || DayTotal(l, Day(now)) + amount >= U64_LIMIT then Overflow
            else if DayTotal(l, Day(now)) + amount > cap.perDay then CapExceeded
            else if WindowTotal(l, Day(now) - 29, 30) + amount >= U64_LIMIT then Overflow else CapExceeded
  {
    hide DayTotal, WindowTotal, Roll, Sum;
    RollRefines(b, l, now);
    MirrorSum(Roll(b, now).ring, l, Day(now));
    SumAtLeast(Roll(b, now).ring, Day(now) % RING_DAYS);
  }

  lemma RecordRefines(c: Bucket, l: Ledger, amount: U64, now: I64)
    requires Refines(c, l) && now >= 0 && c.ringDayIndex == Day(now)
    requires c.spentToday + amount < U64_LIMIT && c.ring[Day(now) % RING_DAYS] + amount < U64_LIMIT
    ensures Refines(Recorded(c, Day(now), amount), l + [Entry(now, amount)])
  {
    hide DayTotal;
    var day := Day(now);
    var e := Entry(now, amount);
    var slot := day % RING_DAYS;
    var ring := c.ring[slot := c.ring[slot] + amount];
    forall d | day - 30 < d <= day ensures ring[d % RING_DAYS] == DayTotal(l + [e], d) {
      DayTotalSnoc(l, e, d);
      assert d % RING_DAYS == slot ==> d == day;
    }
    DayTotalSnoc(l, e, day);
  }

  // ---------------------------------------------------------------- what the caps bound over runs

  /** Every UTC day and every 30 consecutive UTC days are within the cap. */
  ghost predicate Within(l: Ledger, cap: MintCap) {
    && (forall d :: DayTotal(l, d) <= cap.perDay)
    && (forall lo :: WindowTotal(l, lo, 30) <= cap.per30d)
  }

  lemma AllowedStaysWithin(l: Ledger, cap: MintCap, amount: U64, now: I64)
    requires Within(l, cap) && UpTo(l, Day(now)) && Allowed(l, cap, amount, now)
    ensures Within(l + [Entry(now, amount)], cap)
  {
    hide DayTotal, WindowTotal;
    var e := Entry(now, amount);
    forall d ensures DayTotal(l + [e], d) <= cap.perDay { DayTotalSnoc(l, e, d); }
    forall lo ensures WindowTotal(l + [e], lo, 30) <= cap.per30d {
      WindowTotalSnoc(l, e, lo, 30);
      if lo <= Day(now) < lo + 30 { LaterWindow(l, lo, Day(now)); }
    }
  }

  lemma {:induction false} TimeInDays(l: Ledger, from: int, to: int, n: nat)
    requires from <= to <= (Day(from) + n) * DAY_SECS
    ensures TimeTotal(l, from, to) <= WindowTotal(l, Day(from), n)
    decreases |l|
  {
    hide DayTotal, WindowTotal;
    if l != [] {
      var t, e := l[..|l| - 1], l[|l| - 1];
      assert l == t + [e];
      TimeInDays(t, from, to, n);
      WindowTotalSnoc(t, e, Day(from), n);
    }
  }

  /** Any 30 days of seconds and any day of seconds, wherever they start. */
  lemma RollingSeconds(l: Ledger, cap: MintCap, t: int)
    requires Within(l, cap)
    ensures TimeTotal(l, t, t + RING_DAYS * DAY_SECS) <= cap.per30d + cap.perDay
    ensures TimeTotal(l, t, t + DAY_SECS) <= 2 * cap.perDay
  {
    hide DayTotal, TimeTotal;
    TimeInDays(l, t, t + RING_DAYS * DAY_SECS, 31);
    TimeInDays(l, t, t + DAY_SECS, 2);
    assert WindowTotal(l, Day(t), 31) == WindowTotal(l, Day(t), 30) + DayTotal(l, Day(t) + 30);
    assert WindowTotal(l, Day(t), 1) == WindowTotal(l, Day(t), 0) + DayTotal(l, Day(t));
    assert WindowTotal(l, Day(t), 2) == WindowTotal(l, Day(t), 1) + DayTotal(l, Day(t) + 1);
  }

  // ---------------------------------------------------------------- runs of the limiter

  datatype Attempt = Attempt(amount: U64, now: I64)

  datatype RunState = RunState(b: Bucket, l: Ledger)

  /** One attempt; a rejected debit changes nothing. */
  function Attempted(o: RunState, cap: MintCap, a: Attempt): RunState {
    match Debited(o.b, cap, a.amount, a.now)
    case Err(_) => o
    case Ok(c) => RunState(c, o.l + [Entry(a.now, a.amount)])
  }

  /** The bucket and the accepted debits after a run that starts from an empty bucket. */
  function RunDebits(cap: MintCap, run: seq<Attempt>): RunState {
    if run == [] then RunState(EMPTY_BUCKET, [])
    else Attempted(RunDebits(cap, run[..|run| - 1]), cap, run[|run| - 1])
  }

  ghost predicate NonDecreasing(run: seq<Attempt>) {
    forall j, k :: 0 <= j < k < |run| ==> run[j].now <= run[k].now
  }

  /** With a clock that never goes back, every run keeps the ring exact and stays within the cap. */
  lemma {:induction false} RunStaysWithin(cap: MintCap, run: seq<Attempt>)
    requires NonDecreasing(run)
    ensures var o := RunDebits(cap, run);
            && Refines(o.b, o.l) && Within(o.l, cap)
            && (o.b.dayStart == 0 || (run != [] && o.b.dayStart <= run[|run| - 1].now))
    decreases |run|
  {
    hide Attempted, DayTotal, WindowTotal, Refines;
    if run == [] {
      EmptyRefines();
      EmptyIsWithin(cap);
    } else {
      var prior, a := run[..|run| - 1], run[|run| - 1];
      RunStaysWithin(cap, prior);
      if prior != [] { assert prior[|prior| - 1].now <= a.now; }
      AttemptStep(RunDebits(cap, prior), cap, a);
    }
  }

  lemma EmptyIsWithin(cap: MintCap)
    ensures Within([], cap)
  {
    forall lo ensures WindowTotal([], lo, 30) == 0 { EmptyWindow([], lo, 30, lo - 1); }
  }

  lemma AttemptStep(o: RunState, cap: MintCap, a: Attempt)
    requires Refines(o.b, o.l) && Within(o.l, cap) && (o.b.dayStart == 0 || o.b.dayStart <= a.now)
    ensures var o' := Attempted(o, cap, a);
            Refines(o'.b, o'.l) && Within(o'.l, cap) && (o'.b.dayStart == 0 || o'.b.dayStart <= a.now)
  {
    hide DayTotal, WindowTotal, ZeroSkipped, Sum;
    if Debited(o.b, cap, a.amount, a.now).Ok? {
      DebitRefines(o.b, o.l, cap, a.amount, a.now);
      assert o.b.ringDayIndex <= Day(a.now);
      AllowedStaysWithin(o.l, cap, a.amount, a.now);
    }
  }

  // ---------------------------------------------------------------- a clock that may go backwards

  /** Whatever the clock did, no day of the current window is under-counted. */
  ghost predicate NeverUnder(b: Bucket, l: Ledger) {
    && b.ringDayIndex >= 0 && UpTo(l, b.ringDayIndex)
    && forall d {:trigger DayTotal(l, d)} ::
         b.ringDayIndex - 30 < d <= b.ringDayIndex ==> DayTotal(l, d) <= b.ring[d % RING_DAYS]
  }

  lemma RollNeverUnder(b: Bucket, l: Ledger, now: I64)
    requires NeverUnder(b, l) && now >= 0
    ensures NeverUnder(Roll(b, now), l) && Day(now) <= Roll(b, now).ringDayIndex
  {
    hide DayTotal, Age;
    var day := Day(now);
    var last := b.ringDayIndex;
    if day > last {
      forall d | day - 30 < d <= day
        ensures DayTotal(l, d) <= ZeroSkipped(b.ring, day, day - last)[d % RING_DAYS]
      {
        AgeOfDay(day, d);
        if d > last { NothingAfter(l, d, last); }
      }
    }
  }

  /** An accepted debit keeps this for any clock, and leaves the current window within the 30-day cap. */
  lemma DebitNeverUnder(b: Bucket, l: Ledger, cap: MintCap, amount: U64, now: I64)
    requires NeverUnder(b, l) && Debited(b, cap, amount, now).Ok?
    ensures var c := Debited(b, cap, amount, now).value;
            var l' := l + [Entry(now, amount)];
            NeverUnder(c, l') && WindowTotal(l', c.ringDayIndex - 29, 30) <= cap.per30d
  {
    hide DayTotal, WindowTotal, Roll, Sum;
    var r := Roll(b, now);
    var c := Debited(b, cap, amount, now).value;
    var e := Entry(now, amount);
    RollNeverUnder(b, l, now);
    forall d | c.ringDayIndex - 30 < d <= c.ringDayIndex
      ensures DayTotal(l + [e], d) <= c.ring[d % RING_DAYS]
    {
      DayTotalSnoc(l, e, d);
    }
    var slot := Day(now) % RING_DAYS;
    SumUpdate(r.ring, slot, c.ring[slot]);
    WindowUnderSum(c.ring, l + [e], c.ringDayIndex, 30);
    RotatedIsSum(c.ring, c.ringDayIndex - 29);
  }

  /** Whatever the clock did in a run, the ring under-counts no day of its window, which is within the 30-day cap. */
  lemma {:induction false} RunNeverUnder(cap: MintCap, run: seq<Attempt>)
    ensures var o := RunDebits(cap, run);
            NeverUnder(o.b, o.l) && WindowTotal(o.l, o.b.ringDayIndex - 29, 30) <= cap.per30d
    decreases |run|
  {
    hide Debited, NeverUnder, DayTotal, WindowTotal;
    if run == [] {
      NothingUnder(cap);
    } else {
      var o, a := RunDebits(cap, run[..|run| - 1]), run[|run| - 1];
      RunNeverUnder(cap, run[..|run| - 1]);
      if Debited(o.b, cap, a.amount, a.now).Ok? { DebitNeverUnder(o.b, o.l, cap, a.amount, a.now); }
    }
  }

  lemma NothingUnder(cap: MintCap)
    ensures NeverUnder(EMPTY_BUCKET, []) && WindowTotal([], -29, 30) <= cap.per30d
  {
    hide WindowTotal;
    EmptyWindow([], -29, 30, -30);
  }

  lemma {:induction false} WindowUnderSum(ring: Ring, l: Ledger, last: int, n: nat)
    requires n <= 30
    requires forall d {:trigger DayTotal(l, d)} :: last - 30 < d <= last ==> DayTotal(l, d) <= ring[d % RING_DAYS]
    ensures WindowTotal(l, last - 29, n) <= RotatedSum(ring, last - 29, n)
    decreases n
  {
    hide DayTotal;
    if n > 0 { WindowUnderSum(ring, l, last, n - 1); }
  }

  // ---------------------------------------------------------------- the limiter as the program runs it

  /** The per-mint bucket of an account, updated in place. */
  class MintBuckets {
    var dayStart: I64
    var spentToday: U64
    var ringDayIndex: I64
    const ring: array<U64>

    ghost predicate Valid() { ring.Length == 30 }

    ghost function Value(): Bucket
      requires Valid()
      reads this, ring
    {
      Bucket(dayStart, spentToday, ringDayIndex, ring[..])
    }

    constructor ()
      ensures Valid() && fresh(ring) && Value() == EMPTY_BUCKET
    {
      dayStart, spentToday, ringDayIndex := 0, 0, 0;
      ring := new U64[30](i => 0);
      new;
      assert ring[..] == Zeros(30);
    }

    /**
      Works on a copy and writes it back only after every check has passed: a rejected debit leaves
      the bucket identical, an accepted one leaves exactly what `Debited` computes.
    */
    method Debit(cap: MintCap, amount: U64, now: I64) returns (r: Result<()>)
      requires Valid()
      modifies this, ring
      ensures Valid()
      ensures match Debited(old(Value()), cap, amount, now)
              case Err(e) => r == Err(e) && Value() == old(Value())
              case Ok(b) => r.Ok? && Value() == b
    {
      hide Sum, ZeroSkipped, Zeros;
      if now < 0 { return Err(InvalidAccountData); }
      if cap.mint == DEFAULT_KEY { return Err(CapExceeded); }
      if amount > cap.perTx { return Err(CapExceeded); }
      if dayStart + DAY_SECS >= I64_LIMIT { return Err(Overflow); }
      ghost var was := Value();
      var candDay: int, candSpent: int, candIndex: int := dayStart, spentToday, ringDayIndex;
      var candRing := new U64[30](i requires 0 <= i < 30 && ring.Length == 30 reads this, ring => ring[i]);
      assert candRing[..] == was.ring;
      if now >= dayStart + DAY_SECS {
        candSpent, candDay := 0, now - now % DAY_SECS;
      }
      var day := now / DAY_SECS;
      var gap := day - candIndex;
      if gap >= I64_LIMIT { return Err(Overflow); }
      if gap > 0 {
        ZeroSlots(candRing, day, gap);
        candIndex := day;
      }
      ghost var c := Roll(was, now);
      assert candRing[..] == c.ring && candSpent == c.spentToday && candDay == c.dayStart && candIndex == c.ringDayIndex;
      var slot := day % RING_DAYS;
      if candSpent + amount >= U64_LIMIT { return Err(Overflow); }
      if candSpent + amount > cap.perDay { return Err(CapExceeded); }
      var sum :- SumRing(candRing);
      if sum + amount >= U64_LIMIT { return Err(Overflow); }
      if sum + amount > cap.per30d { return Err(CapExceeded); }
      if candRing[slot] + amount >= U64_LIMIT { return Err(Overflow); }
      candRing[slot] := candRing[slot] + amount;
      assert candRing[..] == c.ring[slot := c.ring[slot] + amount];
      WriteBack(candDay, candSpent + amount, candIndex, candRing);
      return Ok(());
    }

    /** `*b = cand`. */
    method WriteBack(day: I64, spent: U64, index: I64, a: array<U64>)
      requires Valid() && a.Length == 30 && a != ring
      modifies this, ring
      ensures Value() == Bucket(day, spent, index, a[..])
    {
      dayStart, spentToday, ringDayIndex := day, spent, index;
      forall k | 0 <= k < 30 { ring[k] := a[k]; }
      assert ring[..] == a[..];
    }

    static method ZeroSlots(a: array<U64>, day: int, gap: int)
      requires a.Length == 30 && gap > 0
      modifies a
      ensures a[..] == ZeroSkipped(old(a[..]), day, gap)
    {
      var zeroCount := Min(RING_DAYS, gap);
      for i := 0 to zeroCount
        invariant forall k :: 0 <= k < 30 ==> a[k] == if Age(day, k) < i then 0 else old(a[k])
      {
        SlotOfDay(day, i);
        a[(day - i) % RING_DAYS] := 0;
      }
    }

    static lemma SlotOfDay(day: int, i: int)
      requires 0 <= i < 30
      ensures forall k :: 0 <= k < 30 ==> (Age(day, k) == i <==> k == (day - i) % RING_DAYS)
    {
    }

    static method SumRing(a: array<U64>) returns (r: Result<U64>)
      requires a.Length == 30
      ensures if Sum(a[..]) < U64_LIMIT then r == Ok(Sum(a[..])) else r == Err(Overflow)
    {
      var sum: int := 0;
      for k := 0 to 30
        invariant sum == Sum(a[..k]) < U64_LIMIT
      {
        assert a[..k + 1][..k] == a[..k];
        PrefixSum(a[..], k + 1);
        if sum + a[k] >= U64_LIMIT { return Err(Overflow); }
        sum := sum + a[k];
      }
      assert a[..30] == a[..];
      return Ok(sum);
    }
  }

  lemma {:induction false} PrefixSum(s: seq<U64>, n: nat)
    requires n <= |s|
    ensures Sum(s[..n]) <= Sum(s)
    decreases |s|
  {
    if n < |s| {
      PrefixSum(s[..|s| - 1], n);
      assert s[..|s| - 1][..n] == s[..n];
    } else {
      assert s[..n] == s;
    }
  }
}
