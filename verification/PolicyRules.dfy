/**
  From the sparse policy on the wire to the fixed slots of the account: caps keep their position,
  ceilings and thresholds move to the slot of the cap with their mint. `ExpandIsKeyed` says when this
  succeeds and that looking a mint up gives the same answer before and after.
*/
module PolicyRules {
  import opened Base
  import opened Buckets
  import opened State

  const MAX_MINTS_AT_CREATE: nat := 4
  const MIN_TIMELOCK_SECS: int := 3600
  const MAX_SESSION_LIFE_SECS: int := 30 * DAY_SECS
  const OPS_MASK_KNOWN: int := 15

  datatype PolicyArgs = PolicyArgs(
    version: U32, caps: seq<MintCap>, sessionCeiling: seq<MintCap>, largeThreshold: seq<MintCap>,
    timelockSecs: I64, recoveryDelaySecs: I64, maxSessionLifeSecs: I64, sessionOpsCeiling: U16)

  /** The first index whose entry has this mint. */
  function Position(s: seq<MintCap>, mint: Pubkey): (r: Option<nat>)
    ensures r.Some? ==> r.value < |s| && s[r.value].mint == mint
    ensures r.Some? ==> forall k :: 0 <= k < r.value ==> s[k].mint != mint
    ensures r.None? ==> forall k :: 0 <= k < |s| ==> s[k].mint != mint
  {
    if s == [] then None
    else if s[0].mint == mint then Some(0)
    else
      var rest := Position(s[1..], mint);
      if rest.None? then None else Some(rest.value + 1)
  }

  function PlaceCaps(caps: seq<MintCap>): Result<Slots>
    requires |caps| <= MAX_MINTS_AT_CREATE
  {
    if caps == [] then Ok(EmptySlots(8))
    else
      var n := |caps| - 1;
      var out :- PlaceCaps(caps[..n]);
      :- Require(caps[n].mint != DEFAULT_KEY, InvalidAccountData);
      :- Require(Position(out[..n], caps[n].mint).None?, InvalidAccountData);
      Ok(out[n := caps[n]])
  }

  function KeyByMint(entries: seq<MintCap>, caps: Slots, used: nat): Result<Slots>
    requires used <= 8
  {
    if entries == [] then Ok(EmptySlots(8))
    else
      var n := |entries| - 1;
      var out :- KeyByMint(entries[..n], caps, used);
      var at := Position(caps[..used], entries[n].mint);
      :- Require(at.Some?, InvalidAccountData);
      :- Require(out[at.value].mint == DEFAULT_KEY, InvalidAccountData);
      Ok(out[at.value := entries[n]])
  }

  function Expand(p: PolicyArgs): Result<Policy> {
    var max := MAX_MINTS_AT_CREATE;
    :- Require(|p.caps| <= max, InvalidAccountData);
    :- Require(|p.sessionCeiling| <= max, InvalidAccountData);
    :- Require(|p.largeThreshold| <= max, InvalidAccountData);
    var caps :- PlaceCaps(p.caps);
    var ceiling :- KeyByMint(p.sessionCeiling, caps, |p.caps|);
    var threshold :- KeyByMint(p.largeThreshold, caps, |p.caps|);
    Ok(Policy(p.version, caps, ceiling, threshold, p.timelockSecs, p.recoveryDelaySecs, p.maxSessionLifeSecs,
              p.sessionOpsCeiling))
  }

  // ---------------------------------------------------------------- what expansion means

  ghost predicate RealMints(s: seq<MintCap>) { forall k :: 0 <= k < |s| ==> s[k].mint != DEFAULT_KEY }

  ghost predicate DistinctMints(s: seq<MintCap>) { forall j, k :: 0 <= j < k < |s| ==> s[j].mint != s[k].mint }

  ghost predicate MintsAmong(s: seq<MintCap>, caps: seq<MintCap>) {
    forall k :: 0 <= k < |s| ==> Position(caps, s[k].mint).Some?
  }

  /** The entry that lookup by mint finds. */
  function Lookup(s: seq<MintCap>, mint: Pubkey): Option<MintCap> {
    var k := FindCap(s, mint);
    if k.None? then None else Some(s[k.value])
  }

  lemma NoMints()
    ensures RealMints([]) && DistinctMints([])
  {
  }

  lemma OneMoreMint(s: seq<MintCap>, c: MintCap)
    ensures RealMints(s + [c]) <==> RealMints(s) && c.mint != DEFAULT_KEY
    ensures DistinctMints(s + [c]) <==> DistinctMints(s) && Position(s, c.mint).None?
  {
    var t := s + [c];
    assert t[|s|] == c && forall k :: 0 <= k < |s| ==> t[k] == s[k];
  }

  lemma PlaceNext(prior: seq<MintCap>, c: MintCap, out: Slots)
    requires |prior| < MAX_MINTS_AT_CREATE && out == prior + EmptySlots(8 - |prior|)
    ensures out[..|prior|] == prior && out[|prior| := c] == (prior + [c]) + EmptySlots(8 - |prior + [c]|)
  {
    hide EmptySlots;
    var next, n := (prior + [c]) + EmptySlots(8 - |prior + [c]|), |prior|;
    assert out[..n] == prior;
    forall k | 0 <= k < 8 ensures out[n := c][k] == next[k] {
      if k > n { assert next[k] == EMPTY_CAP; }
    }
  }

  lemma {:induction false} PlaceCapsIsPositional(caps: seq<MintCap>)
    requires |caps| <= MAX_MINTS_AT_CREATE
    ensures PlaceCaps(caps).Ok? <==> RealMints(caps) && DistinctMints(caps)
    ensures PlaceCaps(caps).Ok? ==> PlaceCaps(caps).value == caps + EmptySlots(8 - |caps|)
    ensures PlaceCaps(caps).Err? ==> PlaceCaps(caps).error == InvalidAccountData
    decreases |caps|
  {
    hide EmptySlots, Position, RealMints, DistinctMints;
    if caps == [] {
      assert [] + EmptySlots(8) == EmptySlots(8);
      assert RealMints(caps) && DistinctMints(caps) by { NoMints(); }
    } else {
      var n := |caps| - 1;
      PlaceCapsIsPositional(caps[..n]);
      assert caps == caps[..n] + [caps[n]];
      OneMoreMint(caps[..n], caps[n]);
      if PlaceCaps(caps[..n]).Ok? {
        PlaceNext(caps[..n], caps[n], PlaceCaps(caps[..n]).value);
      }
    }
  }

  /** Each slot holds the entry with the mint of the cap in the same slot, if there is one. */
  ghost predicate Keyed(entries: seq<MintCap>, caps: Slots, used: nat, out: Slots)
    requires used <= 8
  {
    forall k :: 0 <= k < 8 ==>
      out[k] == if k < used && Position(entries, caps[k].mint).Some?
                then entries[Position(entries, caps[k].mint).value] else EMPTY_CAP
  }

  lemma {:induction false} KeyByMintIsKeyed(entries: seq<MintCap>, caps: Slots, used: nat)
    requires used <= 8 && RealMints(caps[..used]) && DistinctMints(caps[..used])
    ensures KeyByMint(entries, caps, used).Ok? <==> DistinctMints(entries) && MintsAmong(entries, caps[..used])
    ensures KeyByMint(entries, caps, used).Ok? ==> Keyed(entries, caps, used, KeyByMint(entries, caps, used).value)
    ensures KeyByMint(entries, caps, used).Err? ==> KeyByMint(entries, caps, used).error == InvalidAccountData
    decreases |entries|
  {
    if entries != [] {
      var n := |entries| - 1;
      var prior, e := entries[..n], entries[n];
      KeyByMintIsKeyed(prior, caps, used);
      assert entries == prior + [e];
      if KeyByMint(prior, caps, used).Ok? && Position(caps[..used], e.mint).Some? {
        KeyStep(prior, e, caps, used, KeyByMint(prior, caps, used).value);
      }
    }
  }

  lemma KeyStep(prior: seq<MintCap>, e: MintCap, caps: Slots, used: nat, out: Slots)
    requires used <= 8 && RealMints(caps[..used]) && DistinctMints(caps[..used])
    requires DistinctMints(prior) && MintsAmong(prior, caps[..used]) && Keyed(prior, caps, used, out)
    requires Position(caps[..used], e.mint).Some?
    ensures var at := Position(caps[..used], e.mint).value;
            && (out[at].mint == DEFAULT_KEY <==> DistinctMints(prior + [e]))
            && MintsAmong(prior + [e], caps[..used])
            && (out[at].mint == DEFAULT_KEY ==> Keyed(prior + [e], caps, used, out[at := e]))
  {
    var at := Position(caps[..used], e.mint).value;
    assert caps[..used][at] == caps[at];
    PositionSnoc(prior, e, e.mint);
    if Position(prior, e.mint).Some? {
      var j := Position(prior, e.mint).value;
      assert (prior + [e])[j].mint == (prior + [e])[|prior|].mint;
    } else {
      forall k | 0 <= k < 8
        ensures out[at := e][k] == if k < used && Position(prior + [e], caps[k].mint).Some?
                  then (prior + [e])[Position(prior + [e], caps[k].mint).value] else EMPTY_CAP
      {
        PositionSnoc(prior, e, caps[k].mint);
        if k < used { assert caps[..used][k] == caps[k]; }
      }
    }
  }

  lemma {:induction false} PositionSnoc(s: seq<MintCap>, e: MintCap, mint: Pubkey)
    ensures Position(s + [e], mint) ==
            if Position(s, mint).Some? then Position(s, mint) else if e.mint == mint then Some(|s|) else None
  {
    if s != [] {
      assert (s + [e])[1..] == s[1..] + [e];
      PositionSnoc(s[1..], e, mint);
    } else {
      assert s + [e] == [e];
    }
  }

  /** Re-keying keeps every lookup by mint. */
  lemma KeyedLookup(entries: seq<MintCap>, caps: Slots, used: nat, out: Slots, mint: Pubkey)
    requires used <= 8 && RealMints(caps[..used]) && DistinctMints(caps[..used])
    requires DistinctMints(entries) && MintsAmong(entries, caps[..used]) && Keyed(entries, caps, used, out)
    ensures Lookup(out, mint) == Lookup(entries, mint)
  {
    if FindCap(entries, mint).Some? {
      var j := FindCap(entries, mint).value;
      var k := Position(caps[..used], mint).value;
      assert caps[..used][k] == caps[k];
      assert out[k] == entries[j];
      assert forall i :: 0 <= i < used ==> caps[..used][i] == caps[i];
    }
  }

  /** When expansion succeeds, and that it neither loses nor invents a cap, ceiling or threshold. */
  lemma ExpandIsKeyed(p: PolicyArgs)
    ensures Expand(p).Ok? <==>
              && |p.caps| <= 4 && |p.sessionCeiling| <= 4 && |p.largeThreshold| <= 4
              && RealMints(p.caps) && DistinctMints(p.caps)
              && DistinctMints(p.sessionCeiling) && MintsAmong(p.sessionCeiling, p.caps)
              && DistinctMints(p.largeThreshold) && MintsAmong(p.largeThreshold, p.caps)
    ensures Expand(p).Ok? ==>
              var q := Expand(p).value;
              && q.caps == p.caps + EmptySlots(8 - |p.caps|)
              && Keyed(p.sessionCeiling, q.caps, |p.caps|, q.sessionCeiling)
              && Keyed(p.largeThreshold, q.caps, |p.caps|, q.largeThreshold)
              && (forall mint :: Lookup(q.sessionCeiling, mint) == Lookup(p.sessionCeiling, mint))
              && (forall mint :: Lookup(q.largeThreshold, mint) == Lookup(p.largeThreshold, mint))
  {
    hide PlaceCaps, KeyByMint, Keyed, Lookup;
    if |p.caps| <= 4 {
      PlaceCapsIsPositional(p.caps);
      if PlaceCaps(p.caps).Ok? {
        var caps, n := PlaceCaps(p.caps).value, |p.caps|;
        assert caps[..n] == p.caps;
        KeyByMintIsKeyed(p.sessionCeiling, caps, n);
        KeyByMintIsKeyed(p.largeThreshold, caps, n);
        if Expand(p).Ok? {
          var q := Expand(p).value;
          forall mint ensures Lookup(q.sessionCeiling, mint) == Lookup(p.sessionCeiling, mint) {
            KeyedLookup(p.sessionCeiling, caps, n, q.sessionCeiling, mint);
          }
          forall mint ensures Lookup(q.largeThreshold, mint) == Lookup(p.largeThreshold, mint) {
            KeyedLookup(p.largeThreshold, caps, n, q.largeThreshold, mint);
          }
        }
      }
    }
  }

  lemma {:induction false} PlaceFailure(caps: seq<MintCap>)
    requires |caps| <= MAX_MINTS_AT_CREATE && PlaceCaps(caps).Err?
    ensures PlaceCaps(caps).error == InvalidAccountData
  {
    if PlaceCaps(caps[..|caps| - 1]).Err? { PlaceFailure(caps[..|caps| - 1]); }
  }

  lemma {:induction false} KeyFailure(entries: seq<MintCap>, caps: Slots, used: nat)
    requires used <= 8 && KeyByMint(entries, caps, used).Err?
    ensures KeyByMint(entries, caps, used).error == InvalidAccountData
  {
    if KeyByMint(entries[..|entries| - 1], caps, used).Err? { KeyFailure(entries[..|entries| - 1], caps, used); }
  }

  lemma ExpandFailure(p: PolicyArgs)
    requires Expand(p).Err?
    ensures Expand(p).error == InvalidAccountData
  {
    hide PlaceCaps, KeyByMint;
    if |p.caps| <= MAX_MINTS_AT_CREATE {
      if PlaceCaps(p.caps).Err? {
        PlaceFailure(p.caps);
      } else {
        var caps := PlaceCaps(p.caps).value;
        if KeyByMint(p.sessionCeiling, caps, |p.caps|).Err? { KeyFailure(p.sessionCeiling, caps, |p.caps|); }
        if KeyByMint(p.largeThreshold, caps, |p.caps|).Err? { KeyFailure(p.largeThreshold, caps, |p.caps|); }
      }
    }
  }

  /** The stored policy is the one on the wire: equal numbers, and equal lookups by mint. */
  ghost predicate PolicyAs(q: Policy, p: PolicyArgs) {
    && q.timelockSecs == p.timelockSecs && q.recoveryDelaySecs == p.recoveryDelaySecs
    && q.maxSessionLifeSecs == p.maxSessionLifeSecs && q.sessionOpsCeiling == p.sessionOpsCeiling
    && (forall mint :: Lookup(q.caps, mint) == Lookup(p.caps, mint))
    && (forall mint :: Lookup(q.sessionCeiling, mint) == Lookup(p.sessionCeiling, mint))
    && (forall mint :: Lookup(q.largeThreshold, mint) == Lookup(p.largeThreshold, mint))
  }

  lemma ExpandedAs(p: PolicyArgs)
    requires Expand(p).Ok?
    ensures PolicyAs(Expand(p).value, p)
  {
    hide Expand, Lookup, Keyed;
    ExpandIsKeyed(p);
    ExpandKeepsScalars(p);
    forall mint ensures Lookup(Expand(p).value.caps, mint) == Lookup(p.caps, mint) { PaddedLookup(p.caps, mint); }
  }

  lemma PaddedLookup(caps: seq<MintCap>, mint: Pubkey)
    requires |caps| <= 8 && DistinctMints(caps)
    ensures Lookup(caps + EmptySlots(8 - |caps|), mint) == Lookup(caps, mint)
  {
    hide EmptySlots;
    var padded := caps + EmptySlots(8 - |caps|);
    assert forall k :: 0 <= k < |caps| ==> padded[k] == caps[k];
    assert forall k :: |caps| <= k < 8 ==> padded[k] == EMPTY_CAP;
    var j, k := FindCap(padded, mint), FindCap(caps, mint);
    if k.Some? { assert padded[k.value].mint == mint; }
    if j.Some? && j.value < |caps| { assert caps[j.value].mint == mint; }
  }

  // ---------------------------------------------------------------- value rules

  /** Every bit of `m` is set in `c`. */
  predicate SubMask(m: nat, c: nat) {
    m == 0 || (m % 2 <= c % 2 && SubMask(m / 2, c / 2))
  }

  predicate Bit(m: nat, i: nat) { if i == 0 then m % 2 == 1 else Bit(m / 2, i - 1) }

  /** The mask test is the bitwise one: no bit of `m` is missing from `c`. */
  lemma SubMaskIsBitwise(m: nat, c: nat)
    ensures SubMask(m, c) <==> forall i: nat :: Bit(m, i) ==> Bit(c, i)
  {
    hide SubMask, Bit;
    if SubMask(m, c) {
      forall i: nat | Bit(m, i) ensures Bit(c, i) { KeepsBit(m, c, i); }
    } else {
      var i := MissingBit(m, c);
    }
  }

  lemma {:induction false} KeepsBit(m: nat, c: nat, i: nat)
    requires SubMask(m, c) && Bit(m, i)
    ensures Bit(c, i)
    decreases i
  {
    NoBit(i);
    if i > 0 { KeepsBit(m / 2, c / 2, i - 1); }
  }

  lemma {:induction false} MissingBit(m: nat, c: nat) returns (i: nat)
    requires !SubMask(m, c)
    ensures Bit(m, i) && !Bit(c, i)
    decreases m
  {
    if m % 2 > c % 2 {
      i := 0;
    } else {
      var k := MissingBit(m / 2, c / 2);
      i := k + 1;
    }
  }

  lemma {:induction false} NoBit(i: nat)
    ensures !Bit(0, i)
  {
    if i > 0 { NoBit(i - 1); }
  }

  predicate SlotOrdered(p: Policy, k: nat)
    requires k < 8
  {
    var c, s := p.caps[k], p.sessionCeiling[k];
    c.mint != DEFAULT_KEY ==>
      && c.perTx <= c.perDay <= c.per30d
      && s.perTx <= c.perTx && s.perDay <= c.perDay && s.per30d <= c.per30d
  }

  function ValidatePolicy(p: Policy): Outcome {
    Require(
      && p.timelockSecs >= MIN_TIMELOCK_SECS && p.recoveryDelaySecs >= MIN_TIMELOCK_SECS
      && 0 < p.maxSessionLifeSecs <= MAX_SESSION_LIFE_SECS
      && SubMask(p.sessionOpsCeiling, OPS_MASK_KNOWN)
      && forall k :: 0 <= k < 8 ==> SlotOrdered(p, k),
      InvalidPolicy)
  }

  /** What holds of every stored policy: at most four real mints, everything keyed to their slots, ordered. */
  ghost predicate PolicyOk(p: Policy) {
    && ValidatePolicy(p).Pass?
    && (exists n :: 0 <= n <= 4 && UsedSlots(p, n))
  }

  ghost predicate UsedSlots(p: Policy, n: nat) {
    && n <= 4 && RealMints(p.caps[..n]) && DistinctMints(p.caps[..n])
    && (forall k :: n <= k < 8 ==> p.caps[k] == EMPTY_CAP)
    && (forall k :: 0 <= k < 8 ==> p.sessionCeiling[k] == EMPTY_CAP || (k < n && p.sessionCeiling[k].mint == p.caps[k].mint))
    && (forall k :: 0 <= k < 8 ==> p.largeThreshold[k] == EMPTY_CAP || (k < n && p.largeThreshold[k].mint == p.caps[k].mint))
  }

  lemma ExpandedIsOk(p: PolicyArgs)
    requires Expand(p).Ok? && ValidatePolicy(Expand(p).value).Pass?
    ensures PolicyOk(Expand(p).value)
  {
    hide Expand, ValidatePolicy, Lookup;
    ExpandIsKeyed(p);
    var q, n := Expand(p).value, |p.caps|;
    assert q.caps[..n] == p.caps;
    assert UsedSlots(q, n);
  }

  /** The policy on the wire: ordered caps, and each ceiling no higher than the cap of its mint. */
  ghost predicate WirePolicyOk(p: PolicyArgs)
    requires MintsAmong(p.sessionCeiling, p.caps)
  {
    && p.timelockSecs >= MIN_TIMELOCK_SECS && p.recoveryDelaySecs >= MIN_TIMELOCK_SECS
    && 0 < p.maxSessionLifeSecs <= MAX_SESSION_LIFE_SECS && SubMask(p.sessionOpsCeiling, OPS_MASK_KNOWN)
    && (forall k :: 0 <= k < |p.caps| ==> Ordered(p.caps[k]))
    && (forall k :: 0 <= k < |p.sessionCeiling| ==>
          NoHigher(p.sessionCeiling[k], p.caps[Position(p.caps, p.sessionCeiling[k].mint).value]))
  }

  predicate Ordered(c: MintCap) { c.perTx <= c.perDay <= c.per30d }

  predicate NoHigher(s: MintCap, c: MintCap) { s.perTx <= c.perTx && s.perDay <= c.perDay && s.per30d <= c.per30d }

  /** Validating the slots is validating the wire lists mint by mint: re-keying neither hides nor invents a violation. */
  lemma ValidationIsByMint(p: PolicyArgs)
    requires Expand(p).Ok?
    ensures MintsAmong(p.sessionCeiling, p.caps)
    ensures ValidatePolicy(Expand(p).value).Pass? <==> WirePolicyOk(p)
  {
    hide Expand, SubMask, Lookup;
    ExpandIsKeyed(p);
    ExpandKeepsScalars(p);
    var q := Expand(p).value;
    forall k: nat | k < |p.caps| ensures SlotOrdered(q, k) <==> Ordered(p.caps[k]) && CeilingFits(p, k) {
      SlotByMint(p, q, k);
    }
    forall k: nat | |p.caps| <= k < 8 ensures SlotOrdered(q, k) { assert q.caps[k] == EMPTY_CAP; }
    CeilingsByCap(p);
  }

  lemma ExpandKeepsScalars(p: PolicyArgs)
    requires Expand(p).Ok?
    ensures var q := Expand(p).value;
            && q.timelockSecs == p.timelockSecs && q.recoveryDelaySecs == p.recoveryDelaySecs
            && q.maxSessionLifeSecs == p.maxSessionLifeSecs && q.sessionOpsCeiling == p.sessionOpsCeiling
  {
    hide PlaceCaps, KeyByMint;
  }

  /** The ceiling with the mint of cap `k`, if there is one, is no higher than the cap. */
  ghost predicate CeilingFits(p: PolicyArgs, k: nat)
    requires k < |p.caps|
  {
    var at := Position(p.sessionCeiling, p.caps[k].mint);
    at.Some? ==> NoHigher(p.sessionCeiling[at.value], p.caps[k])
  }

  lemma SlotByMint(p: PolicyArgs, q: Policy, k: nat)
    requires k < |p.caps| <= 4 && RealMints(p.caps) && q.caps == p.caps + EmptySlots(8 - |p.caps|)
    requires Keyed(p.sessionCeiling, q.caps, |p.caps|, q.sessionCeiling)
    ensures SlotOrdered(q, k) <==> Ordered(p.caps[k]) && CeilingFits(p, k)
  {
    hide Position, EmptySlots;
    assert q.caps[k] == p.caps[k];
  }

  lemma OwnPosition(s: seq<MintCap>, k: nat)
    requires k < |s| && DistinctMints(s)
    ensures Position(s, s[k].mint) == Some(k)
  {
  }

  lemma CeilingsByCap(p: PolicyArgs)
    requires DistinctMints(p.caps) && DistinctMints(p.sessionCeiling) && MintsAmong(p.sessionCeiling, p.caps)
    ensures (forall k: nat :: k < |p.caps| ==> CeilingFits(p, k)) <==>
            (forall k :: 0 <= k < |p.sessionCeiling| ==>
               NoHigher(p.sessionCeiling[k], p.caps[Position(p.caps, p.sessionCeiling[k].mint).value]))
  {
    hide NoHigher, Position;
    forall j: nat | j < |p.sessionCeiling| ensures Position(p.sessionCeiling, p.sessionCeiling[j].mint) == Some(j) {
      OwnPosition(p.sessionCeiling, j);
    }
    forall k: nat | k < |p.caps| ensures Position(p.caps, p.caps[k].mint) == Some(k) { OwnPosition(p.caps, k); }
    if forall k: nat :: k < |p.caps| ==> CeilingFits(p, k) {
      forall j: nat | j < |p.sessionCeiling|
        ensures NoHigher(p.sessionCeiling[j], p.caps[Position(p.caps, p.sessionCeiling[j].mint).value])
      {
        assert CeilingFits(p, Position(p.caps, p.sessionCeiling[j].mint).value);
      }
    }
  }

  /** A grantable mint is a spendable one, in the same slot and under ordered bounds. */
  lemma CeilingChain(p: Policy, mint: Pubkey)
    requires PolicyOk(p) && FindCap(p.sessionCeiling, mint).Some?
    ensures var k := FindCap(p.sessionCeiling, mint).value;
            && FindCap(p.caps, mint) == Some(k)
            && p.sessionCeiling[k].perTx <= p.caps[k].perTx <= p.caps[k].perDay <= p.caps[k].per30d
  {
    var n :| 0 <= n <= 4 && UsedSlots(p, n);
    var k := FindCap(p.sessionCeiling, mint).value;
    assert p.caps[k].mint == mint && SlotOrdered(p, k);
    var j := FindCap(p.caps, mint).value;
    assert p.caps[..n][k] == p.caps[k];
    if j < n { assert p.caps[..n][j] == p.caps[j]; }
  }

  /** A mint the root may move directly is a spendable one. */
  lemma ThresholdChain(p: Policy, mint: Pubkey)
    requires PolicyOk(p) && FindCap(p.largeThreshold, mint).Some?
    ensures FindCap(p.caps, mint) == FindCap(p.largeThreshold, mint)
  {
    var n :| 0 <= n <= 4 && UsedSlots(p, n);
    var k := FindCap(p.largeThreshold, mint).value;
    assert p.caps[k].mint == mint;
    var j := FindCap(p.caps, mint).value;
    assert p.caps[..n][k] == p.caps[k];
    if j < n { assert p.caps[..n][j] == p.caps[j]; }
  }

  /** Lookup finds the slot itself: no two slots share a mint. */
  lemma CapSlotIsFound(p: Policy, k: nat)
    requires PolicyOk(p) && k < 8 && p.caps[k].mint != DEFAULT_KEY
    ensures FindCap(p.caps, p.caps[k].mint) == Some(k)
  {
    var n :| 0 <= n <= 4 && UsedSlots(p, n);
    var j := FindCap(p.caps, p.caps[k].mint).value;
    assert p.caps[..n][k] == p.caps[k];
    if j < n { assert p.caps[..n][j] == p.caps[j]; }
  }

  // ---------------------------------------------------------------- the loops of `expand`

  lemma PlaceStep(caps: seq<MintCap>, i: nat)
    requires i < |caps| <= MAX_MINTS_AT_CREATE
    ensures PlaceCaps(caps[..i + 1]) ==
            match PlaceCaps(caps[..i])
            case Err(e) => Err(e)
            case Ok(out) =>
              if caps[i].mint == DEFAULT_KEY || Position(out[..i], caps[i].mint).Some? then Err(InvalidAccountData)
              else Ok(out[i := caps[i]])
  {
    hide Position;
    assert caps[..i + 1][..i] == caps[..i];
  }

  lemma {:induction false} PlaceFails(caps: seq<MintCap>, i: nat)
    requires i <= |caps| <= MAX_MINTS_AT_CREATE && PlaceCaps(caps[..i]).Err?
    ensures PlaceCaps(caps) == PlaceCaps(caps[..i])
    decreases |caps| - i
  {
    if i < |caps| {
      PlaceStep(caps, i);
      PlaceFails(caps, i + 1);
    } else {
      assert caps[..i] == caps;
    }
  }

  /** The first loop: each cap keeps its position. */
  method PlaceCapsLoop(caps: seq<MintCap>) returns (r: Result<Slots>)
    requires |caps| <= MAX_MINTS_AT_CREATE
    ensures r == PlaceCaps(caps)
  {
    hide PlaceCaps, EmptySlots;
    var out := new MintCap[8](i => EMPTY_CAP);
    PlaceNone(caps, out[..]);
    for i := 0 to |caps|
      invariant PlaceCaps(caps[..i]) == Ok(out[..])
    {
      PlaceStep(caps, i);
      var c := caps[i];
      if c.mint == DEFAULT_KEY || Position(out[..i], c.mint).Some? {
        PlaceFails(caps, i + 1);
        return Err(InvalidAccountData);
      }
      assert out[..][..i] == out[..i];
      ghost var before := out[..];
      out[i] := c;
      assert out[..] == before[i := c];
    }
    assert caps[..|caps|] == caps;
    return Ok(out[..]);
  }

  lemma PlaceNone(caps: seq<MintCap>, out: Slots)
    requires forall k :: 0 <= k < 8 ==> out[k] == EMPTY_CAP
    ensures PlaceCaps(caps[..0]) == Ok(out)
  {
    hide EmptySlots;
    assert out == EmptySlots(8);
  }

  lemma KeyByMintStep(entries: seq<MintCap>, caps: Slots, used: nat, i: nat)
    requires i < |entries| && used <= 8
    ensures KeyByMint(entries[..i + 1], caps, used) ==
            match KeyByMint(entries[..i], caps, used)
            case Err(e) => Err(e)
            case Ok(out) =>
              var at := Position(caps[..used], entries[i].mint);
              if at.None? || out[at.value].mint != DEFAULT_KEY then Err(InvalidAccountData)
              else Ok(out[at.value := entries[i]])
  {
    hide Position;
    assert entries[..i + 1][..i] == entries[..i];
  }

  lemma {:induction false} KeyByMintFails(entries: seq<MintCap>, caps: Slots, used: nat, i: nat)
    requires i <= |entries| && used <= 8 && KeyByMint(entries[..i], caps, used).Err?
    ensures KeyByMint(entries, caps, used) == KeyByMint(entries[..i], caps, used)
    decreases |entries| - i
  {
    if i < |entries| {
      KeyByMintStep(entries, caps, used, i);
      KeyByMintFails(entries, caps, used, i + 1);
    } else {
      assert entries[..i] == entries;
    }
  }

  /** The second loop: each entry moves to the slot of the cap with its mint. */
  method KeyByMintLoop(entries: seq<MintCap>, caps: Slots, used: nat) returns (r: Result<Slots>)
    requires used <= 8
    ensures r == KeyByMint(entries, caps, used)
  {
    hide KeyByMint, EmptySlots;
    var out := new MintCap[8](i => EMPTY_CAP);
    KeyNone(entries, caps, used, out[..]);
    for i := 0 to |entries|
      invariant KeyByMint(entries[..i], caps, used) == Ok(out[..])
    {
      KeyByMintStep(entries, caps, used, i);
      var e := entries[i];
      var at := Position(caps[..used], e.mint);
      if at.None? || out[at.value].mint != DEFAULT_KEY {
        KeyByMintFails(entries, caps, used, i + 1);
        return Err(InvalidAccountData);
      }
      ghost var before := out[..];
      out[at.value] := e;
      assert out[..] == before[at.value := e];
    }
    assert entries[..|entries|] == entries;
    return Ok(out[..]);
  }

  lemma KeyNone(entries: seq<MintCap>, caps: Slots, used: nat, out: Slots)
    requires used <= 8 && forall k :: 0 <= k < 8 ==> out[k] == EMPTY_CAP
    ensures KeyByMint(entries[..0], caps, used) == Ok(out)
  {
    hide EmptySlots;
    assert out == EmptySlots(8);
  }
}
