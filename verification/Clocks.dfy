/**
  The limiter under any clock. It never looks back: it keeps one day total and one 30-slot ring, both
  rolled forward for good. `RunHolds` says what its caps still bound: each holds unless its own condition
  on the times of the accepted debits has failed. `ClockLimits` says that these conditions are exact.
*/
module Clocks {
  import opened Base
  import opened Buckets

  // ---------------------------------------------------------------- conditions on times

  /** The limiter accepts nothing more once the end of the recorded day is no 64-bit time. */
  predicate Recordable(t: int) { (Day(t) + 1) * DAY_SECS < I64_LIMIT }

  /** A day is left for a later one and then returned to. */
  predicate Returns(x: int, y: int, z: int) { 0 <= Day(x) == Day(z) < Day(y) && Recordable(y) }

  /** A day leaves the ring for good and then one less than 30 days from it is returned to. */
  predicate Reopens(x: int, y: int, z: int) {
    0 <= Day(x) && Day(x) + 30 <= Day(y) && 0 <= Day(z) && -30 < Day(z) - Day(x) < 30 && Recordable(y)
  }

  ghost predicate DayRevisited(ts: seq<int>) {
    exists i, j, k :: 0 <= i < j < k < |ts| && Returns(ts[i], ts[j], ts[k])
  }

  ghost predicate WindowReopened(ts: seq<int>) {
    exists i, j, k :: 0 <= i < j < k < |ts| && Reopens(ts[i], ts[j], ts[k])
  }

  function TimesOf(l: Ledger): (ts: seq<int>)
    ensures |ts| == |l| && forall k :: 0 <= k < |l| ==> ts[k] == l[k].time
  {
    if l == [] then [] else TimesOf(l[..|l| - 1]) + [l[|l| - 1].time]
  }

  // ---------------------------------------------------------------- what the bucket still knows

  ghost predicate DaysWithin(l: Ledger, cap: MintCap) { forall d :: DayTotal(l, d) <= cap.perDay }

  ghost predicate WindowsWithin(l: Ledger, cap: MintCap) { forall lo :: WindowTotal(l, lo, 30) <= cap.per30d }

  ghost predicate Timely(l: Ledger) { forall k :: 0 <= k < |l| ==> 0 <= l[k].time }

  /** An entry on day `d` was followed by one at least `gap` days later. */
  ghost predicate Left(l: Ledger, d: int, gap: int) {
    exists x, y :: 0 <= x < y < |l| && Day(l[x].time) == d && d + gap <= Day(l[y].time)
  }

  /**
    The bucket under any clock: a day that was never left counts in full in today's total, and one that
    was never left by 30 days counts in full in its slot.
  */
  ghost predicate Follows(b: Bucket, l: Ledger) {
    && b.ringDayIndex >= 0 && b.dayStart == b.ringDayIndex * DAY_SECS && UpTo(l, b.ringDayIndex) && Timely(l)
    && (forall d {:trigger DayTotal(l, d)} :: DayFollows(b, l, d))
  }

  ghost predicate DayFollows(b: Bucket, l: Ledger, d: int) {
    && (DayTotal(l, d) <= b.spentToday || Left(l, d, 1))
    && (DayTotal(l, d) <= b.ring[d % RING_DAYS] || Left(l, d, 30))
  }

  lemma EmptyFollows()
    ensures Follows(EMPTY_BUCKET, [])
  {
    hide Zeros;
    forall d ensures DayFollows(EMPTY_BUCKET, [], d) { assert DayTotal([], d) == 0; }
  }

  lemma {:induction false} SomeEntry(l: Ledger, d: int) returns (x: nat)
    requires DayTotal(l, d) > 0
    ensures x < |l| && Day(l[x].time) == d
    decreases |l|
  {
    var n := |l| - 1;
    if Day(l[n].time) == d { x := n; } else { x := SomeEntry(l[..n], d); }
  }

  lemma LeftSnoc(l: Ledger, e: Entry, d: int, gap: int)
    ensures Left(l, d, gap) ==> Left(l + [e], d, gap)
    ensures DayTotal(l, d) > 0 && d + gap <= Day(e.time) ==> Left(l + [e], d, gap)
  {
    var l' := l + [e];
    assert forall k :: 0 <= k < |l| ==> l'[k] == l[k];
    if Left(l, d, gap) {
      var x, y :| 0 <= x < y < |l| && Day(l[x].time) == d && d + gap <= Day(l[y].time);
      assert Day(l'[x].time) == d && d + gap <= Day(l'[y].time);
    }
    if DayTotal(l, d) > 0 && d + gap <= Day(e.time) {
      var x := SomeEntry(l, d);
      assert Day(l'[x].time) == d && l'[|l|] == e;
    }
  }

  /** Rolling forgets a day's total only when the day is left, and its slot only when it is left by 30 days. */
  lemma RollFollows(b: Bucket, l: Ledger, e: Entry, now: I64, d: int)
    requires Follows(b, l) && now >= 0 && e.time == now
    ensures DayTotal(l, d) <= Roll(b, now).spentToday || Left(l + [e], d, 1)
    ensures DayTotal(l, d) <= Roll(b, now).ring[d % RING_DAYS] || Left(l + [e], d, 30)
    ensures Roll(b, now).ringDayIndex == (if Day(now) > b.ringDayIndex then Day(now) else b.ringDayIndex)
    ensures Roll(b, now).dayStart == Roll(b, now).ringDayIndex * DAY_SECS
  {
    hide DayTotal, Left, Age, ZeroSkipped;
    assert DayFollows(b, l, d);
    LeftSnoc(l, e, d, 1);
    LeftSnoc(l, e, d, 30);
    if d > b.ringDayIndex { NothingAfter(l, d, b.ringDayIndex); }
    if Day(now) > b.ringDayIndex && d <= b.ringDayIndex { SkippedSlot(b.ring, Day(now), b.ringDayIndex, d); }
    assert now - now % DAY_SECS == Day(now) * DAY_SECS;
  }

  lemma SkippedSlot(ring: Ring, day: int, last: int, d: int)
    requires d <= last < day
    ensures ZeroSkipped(ring, day, day - last)[d % RING_DAYS] == ring[d % RING_DAYS] || d + 30 <= day
  {
    assert Age(day, d % RING_DAYS) == (day - d) % RING_DAYS by { SameAge(day, d); }
  }

  lemma SameAge(day: int, d: int)
    ensures Age(day, d % RING_DAYS) == (day - d) % RING_DAYS
  {
  }

  lemma DebitFollows(b: Bucket, l: Ledger, cap: MintCap, amount: U64, now: I64)
    requires Follows(b, l) && Debited(b, cap, amount, now).Ok?
    ensures Follows(Debited(b, cap, amount, now).value, l + [Entry(now, amount)])
  {
    hide DayTotal, Left, Roll, Sum;
    var c, e := Debited(b, cap, amount, now).value, Entry(now, amount);
    RollFollows(b, l, e, now, 0);
    forall d ensures DayFollows(c, l + [e], d) {
      RollFollows(b, l, e, now, d);
      DayTotalSnoc(l, e, d);
    }
  }

  // ---------------------------------------------------------------- accepted debits keep the caps, unless ...

  /** Each cap holds, or its own condition on the ledger's times has failed. */
  ghost predicate CapsHold(l: Ledger, cap: MintCap) {
    && (DayRevisited(TimesOf(l)) || DaysWithin(l, cap))
    && (WindowReopened(TimesOf(l)) || WindowsWithin(l, cap))
  }

  lemma EmptyHolds(cap: MintCap)
    ensures CapsHold([], cap)
  {
    EmptyIsWithin(cap);
  }

  lemma RevisitedSnoc(ts: seq<int>, t: int)
    ensures DayRevisited(ts) ==> DayRevisited(ts + [t])
  {
    hide Returns;
    if DayRevisited(ts) {
      var i, j, k :| 0 <= i < j < k < |ts| && Returns(ts[i], ts[j], ts[k]);
      assert Returns((ts + [t])[i], (ts + [t])[j], (ts + [t])[k]);
    }
  }

  lemma ReopenedSnoc(ts: seq<int>, t: int)
    ensures WindowReopened(ts) ==> WindowReopened(ts + [t])
  {
    hide Reopens;
    if WindowReopened(ts) {
      var i, j, k :| 0 <= i < j < k < |ts| && Reopens(ts[i], ts[j], ts[k]);
      assert Reopens((ts + [t])[i], (ts + [t])[j], (ts + [t])[k]);
    }
  }

  lemma TimesSnoc(l: Ledger, e: Entry)
    ensures TimesOf(l + [e]) == TimesOf(l) + [e.time]
  {
    Snoc(l, e);
  }

  /** What was left and is now returned to is a return in the times. */
  lemma LeftReturns(l: Ledger, e: Entry, last: int)
    requires UpTo(l, last) && Timely(l) && (last + 1) * DAY_SECS < I64_LIMIT && Left(l, Day(e.time), 1)
    ensures DayRevisited(TimesOf(l + [e]))
  {
    var ts, d := TimesOf(l + [e]), Day(e.time);
    var x, y :| 0 <= x < y < |l| && Day(l[x].time) == d && d + 1 <= Day(l[y].time);
    assert ts[x] == l[x].time && ts[y] == l[y].time && ts[|l|] == e.time;
    assert Returns(ts[x], ts[y], ts[|l|]);
  }

  lemma LeftReopens(l: Ledger, e: Entry, d: int, last: int)
    requires UpTo(l, last) && Timely(l) && (last + 1) * DAY_SECS < I64_LIMIT && Left(l, d, 30)
    requires 0 <= Day(e.time) && -30 < Day(e.time) - d < 30
    ensures WindowReopened(TimesOf(l + [e]))
  {
    var ts := TimesOf(l + [e]);
    var x, y :| 0 <= x < y < |l| && Day(l[x].time) == d && d + 30 <= Day(l[y].time);
    assert ts[x] == l[x].time && ts[y] == l[y].time && ts[|l|] == e.time;
    assert Reopens(ts[x], ts[y], ts[|l|]);
  }

  /** A new entry does not leave its own day, nor any of the 29 before it by 30 days. */
  lemma NotLeftByOwn(l: Ledger, e: Entry, d: int, gap: int)
    requires Left(l + [e], d, gap) && Day(e.time) < d + gap
    ensures Left(l, d, gap)
  {
    var l' := l + [e];
    var x, y :| 0 <= x < y < |l'| && Day(l'[x].time) == d && d + gap <= Day(l'[y].time);
    assert y < |l| && l'[y] == l[y] && l'[x] == l[x];
  }

  lemma DebitHoldsDay(b: Bucket, l: Ledger, cap: MintCap, amount: U64, now: I64)
    requires Follows(b, l) && Debited(b, cap, amount, now).Ok?
    ensures DayRevisited(TimesOf(l + [Entry(now, amount)])) || DayTotal(l + [Entry(now, amount)], Day(now)) <= cap.perDay
  {
    hide DayTotal, Left, Roll, Sum, DayRevisited, WindowReopened;
    var e, d := Entry(now, amount), Day(now);
    RollFollows(b, l, e, now, d);
    DayTotalSnoc(l, e, d);
    if DayTotal(l + [e], d) > cap.perDay {
      NotLeftByOwn(l, e, d, 1);
      LeftReturns(l, e, b.ringDayIndex);
    }
  }

  lemma DebitHoldsWindow(b: Bucket, l: Ledger, cap: MintCap, amount: U64, now: I64, lo: int)
    requires Follows(b, l) && Debited(b, cap, amount, now).Ok? && lo <= Day(now) < lo + 30
    ensures WindowReopened(TimesOf(l + [Entry(now, amount)]))
         || WindowTotal(l + [Entry(now, amount)], lo, 30) <= cap.per30d
  {
    hide DayTotal, Left, Roll, Sum, DayRevisited, WindowReopened, WindowTotal, RotatedSum;
    var e, r := Entry(now, amount), Roll(b, now);
    var c := Debited(b, cap, amount, now).value;
    SumUpdate(r.ring, Day(now) % RING_DAYS, c.ring[Day(now) % RING_DAYS]);
    if !WindowReopened(TimesOf(l + [e])) {
      forall d {:trigger DayTotal(l + [e], d)} | lo - 1 < d <= lo + 29
        ensures DayTotal(l + [e], d) <= c.ring[d % RING_DAYS]
      {
        RollFollows(b, l, e, now, d);
        DayTotalSnoc(l, e, d);
        if DayTotal(l, d) > r.ring[d % RING_DAYS] {
          NotLeftByOwn(l, e, d, 30);
          LeftReopens(l, e, d, b.ringDayIndex);
        }
      }
      WindowUnderSum(c.ring, l + [e], lo + 29, 30);
      RotatedIsSum(c.ring, lo);
    }
  }

  lemma DebitHolds(b: Bucket, l: Ledger, cap: MintCap, amount: U64, now: I64)
    requires Follows(b, l) && CapsHold(l, cap) && Debited(b, cap, amount, now).Ok?
    ensures CapsHold(l + [Entry(now, amount)], cap)
  {
    hide DayTotal, WindowTotal, Debited, DayRevisited, WindowReopened, Follows;
    var e := Entry(now, amount);
    TimesSnoc(l, e);
    RevisitedSnoc(TimesOf(l), now);
    ReopenedSnoc(TimesOf(l), now);
    if !DayRevisited(TimesOf(l + [e])) {
      DebitHoldsDay(b, l, cap, amount, now);
      forall d ensures DayTotal(l + [e], d) <= cap.perDay { DayTotalSnoc(l, e, d); }
    }
    if !WindowReopened(TimesOf(l + [e])) {
      forall lo ensures WindowTotal(l + [e], lo, 30) <= cap.per30d {
        WindowTotalSnoc(l, e, lo, 30);
        if lo <= Day(now) < lo + 30 { DebitHoldsWindow(b, l, cap, amount, now, lo); }
      }
    }
  }

  /** Over every run with any clock, each cap holds on the accepted debits unless its condition on their times fails. */
  lemma {:induction false} RunHolds(cap: MintCap, run: seq<Attempt>)
    ensures Follows(RunDebits(cap, run).b, RunDebits(cap, run).l) && CapsHold(RunDebits(cap, run).l, cap)
    decreases |run|
  {
    hide Debited, Follows, CapsHold;
    if run == [] {
      EmptyFollows();
      EmptyHolds(cap);
    } else {
      var o, a := RunDebits(cap, run[..|run| - 1]), run[|run| - 1];
      RunHolds(cap, run[..|run| - 1]);
      if Debited(o.b, cap, a.amount, a.now).Ok? {
        DebitFollows(o.b, o.l, cap, a.amount, a.now);
        DebitHolds(o.b, o.l, cap, a.amount, a.now);
      }
    }
  }

  /** If the days never go back, neither condition fails. */
  lemma SteadyClock(ts: seq<int>)
    requires forall j, k :: 0 <= j < k < |ts| ==> Day(ts[j]) <= Day(ts[k])
    ensures !DayRevisited(ts) && !WindowReopened(ts)
  {
    forall i, j, k | 0 <= i < j < k < |ts| ensures !Returns(ts[i], ts[j], ts[k]) && !Reopens(ts[i], ts[j], ts[k]) {
      assert Day(ts[j]) <= Day(ts[k]);
    }
  }
}
