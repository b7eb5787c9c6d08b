/** The session account as the program updates it: slots written in place, one cap at a time. */
module SessionKey {
  import opened Base
  import opened Buckets
  import opened Wire
  import opened State
  import PolicyRules
  import opened Sessions

  class SessionKey {
    var version: Byte
    var bump: Byte
    var account: Pubkey
    var pubkey: Pubkey
    var kind: Byte
    var expiryTs: I64
    var opsMask: U16
    var generationAtGrant: U64
    const caps: array<MintCap>
    const lifetimeCap: array<U64>
    const lifetimeSpent: array<U64>
    var programAllowlistId: U16
    var displayLabel: Label

    ghost predicate Valid() {
      caps.Length == 8 && lifetimeCap.Length == 8 && lifetimeSpent.Length == 8 && lifetimeCap != lifetimeSpent
    }

    ghost function Value(): Session
      requires Valid()
      reads this, caps, lifetimeCap, lifetimeSpent
    {
      Session(version, bump, account, pubkey, kind, expiryTs, opsMask, generationAtGrant, caps[..], lifetimeCap[..],
              lifetimeSpent[..], programAllowlistId, displayLabel)
    }

    /** The zero-filled account the framework allocates. */
    constructor ()
      ensures Valid() && fresh(caps) && fresh(lifetimeCap) && fresh(lifetimeSpent)
      ensures Value() == BLANK_SESSION
    {
      version, bump, account, pubkey, kind, expiryTs, opsMask := 0, 0, DEFAULT_KEY, DEFAULT_KEY, 0, 0, 0;
      generationAtGrant, programAllowlistId, displayLabel := 0, 0, Zeros(16);
      caps := new MintCap[8](i => EMPTY_CAP);
      lifetimeCap := new U64[8](i => 0);
      lifetimeSpent := new U64[8](i => 0);
      new;
      hide EmptySlots, EmptyAmounts, Zeros;
      assert caps[..] == EmptySlots(8) && lifetimeCap[..] == EmptyAmounts(8) && lifetimeSpent[..] == EmptyAmounts(8);
    }

    method AuthorityHash(env: Env) returns (h: Hash)
      requires Valid()
      ensures h == env.keccak(AuthorityPreimage(AuthorityOf(Value())))
    {
      hide SlotBytes;
      var buf := AuthorityBuffer(Authority(account, pubkey, caps[..], lifetimeCap[..]));
      h := env.keccak(SESSION_AUTHORITY_DOMAIN + buf);
    }

    /** Blanks the three tables. */
    method ClearSlots()
      requires Valid()
      modifies caps, lifetimeCap, lifetimeSpent
      ensures Value() == old(Value()).(caps := EmptySlots(8), lifetimeCap := EmptyAmounts(8), lifetimeSpent := EmptyAmounts(8))
    {
      hide EmptySlots, EmptyAmounts;
      forall k | 0 <= k < 8 { caps[k] := EMPTY_CAP; }
      forall k | 0 <= k < 8 { lifetimeCap[k] := 0; }
      forall k | 0 <= k < 8 { lifetimeSpent[k] := 0; }
      assert caps[..] == EmptySlots(8);
      assert lifetimeCap[..] == EmptyAmounts(8) && lifetimeSpent[..] == EmptyAmounts(8);
    }

    /** Gives a new account its identity and empty tables; an existing one must be the one named. */
    method Open(key: Pubkey, b: GrantBody, bumpSeed: Byte) returns (r: Result<()>)
      requires Valid()
      modifies this, caps, lifetimeCap, lifetimeSpent
      ensures match Opened(old(Value()), key, b, bumpSeed)
              case Err(e) => r == Err(e) && Value() == old(Value())
              case Ok(s) => r.Ok? && Value() == s
    {
      hide EmptySlots, EmptyAmounts;
      if version == 0 {
        version, bump, account, pubkey := 1, bumpSeed, key, b.sessionPubkey;
        ClearSlots();
      } else if account != key || pubkey != b.sessionPubkey {
        return Err(Unauthorized);
      }
      return Ok(());
    }

    /** Replaces what every grant replaces outright. */
    method Bless(b: GrantBody, generation: U64)
      requires Valid()
      modifies this
      ensures Value() == Blessed(old(Value()), b, generation)
    {
      kind, expiryTs, opsMask := b.kind, b.expiryTs, b.opsMask;
      programAllowlistId, displayLabel, generationAtGrant := b.programAllowlistId, b.displayLabel, generation;
    }

    /** Writes one cap into its slot; a refusal writes nothing. */
    method MergeCap(c: MintCap, lifetime: U64) returns (r: Result<()>)
      requires Valid()
      modifies caps, lifetimeCap, lifetimeSpent
      ensures match MergeOne(old(Value()), c, lifetime)
              case Err(e) => r == Err(e) && Value() == old(Value())
              case Ok(s) => r.Ok? && Value() == s
    {
      hide FindCap, PolicyRules.Position;
      ghost var s := Value();
      var slot := SlotFor(caps[..], c.mint);
      if slot.None? { return Err(CapExceeded); }
      var k := slot.value;
      var dirty := caps[k].mint == DEFAULT_KEY;
      if lifetime < if dirty then 0 else lifetimeSpent[k] { return Err(CapExceeded); }
      if dirty { lifetimeSpent[k] := 0; }
      caps[k] := c;
      lifetimeCap[k] := lifetime;
      assert caps[..] == s.caps[k := c] && lifetimeCap[..] == s.lifetimeCap[k := lifetime];
      assert lifetimeSpent[..] == s.lifetimeSpent[k := SpentIn(s, k)];
      return Ok(());
    }

    /**
      The merge loop. It is not atomic by itself: what it has written before a refusal stays, and the
      instruction's rollback is what undoes it.
    */
    method MergeAll(b: GrantBody) returns (r: Result<()>)
      requires Valid()
      modifies caps, lifetimeCap, lifetimeSpent
      ensures match MergeCaps(old(Value()), b.caps, b.lifetimeCap)
              case Err(e) => r == Err(e)
              case Ok(s) => r.Ok? && Value() == s
      ensures Value() == LeftBehind(old(Value()), b.caps, b.lifetimeCap)
    {
      hide MergeOne, MergeCaps, LeftBehind;
      ghost var was := Value();
      MergeNone(was, b);
      for i := 0 to |b.caps|
        invariant MergeCaps(was, b.caps[..i], b.lifetimeCap) == Ok(Value())
      {
        LeftIsMerged(was, b.caps[..i], b.lifetimeCap);
        MergeStep(was, b, i);
        LeftStep(was, b, i);
        if i >= |b.lifetimeCap| {
          MergeFails(was, b, i + 1);
          return Err(BadInstructionLayout);
        }
        var m := MergeCap(b.caps[i], b.lifetimeCap[i]);
        if m.Err? {
          MergeFails(was, b, i + 1);
          return m;
        }
      }
      assert b.caps[..|b.caps|] == b.caps;
      LeftIsMerged(was, b.caps, b.lifetimeCap);
      return Ok(());
    }
  }

  /** A two-cap grant whose second cap is refused has already written its first. */
  lemma MergeCanFailHalfway(held: Pubkey, added: Pubkey)
    requires held != added && held != DEFAULT_KEY && added != DEFAULT_KEY
    ensures var s := BLANK_SESSION.(caps := EmptySlots(8)[0 := MintCap(held, 5, 0, 0)],
                                    lifetimeCap := EmptyAmounts(8)[0 := 50], lifetimeSpent := EmptyAmounts(8)[0 := 30]);
            var caps := [MintCap(added, 1, 0, 0), MintCap(held, 5, 0, 0)];
            && MergeCaps(s, caps, [9, 29]) == Err(CapExceeded)
            && MergeCaps(s, caps[..1], [9, 29]).Ok? && MergeCaps(s, caps[..1], [9, 29]).value != s
  {
    hide EmptySlots, EmptyAmounts, Zeros;
    var s := BLANK_SESSION.(caps := EmptySlots(8)[0 := MintCap(held, 5, 0, 0)],
                            lifetimeCap := EmptyAmounts(8)[0 := 50], lifetimeSpent := EmptyAmounts(8)[0 := 30]);
    var x, y := MintCap(added, 1, 0, 0), MintCap(held, 5, 0, 0);
    var caps := [x, y];
    FirstSlots(s.caps, held, added);
    assert caps[..1] == [x] && [x][..0] == [] && caps[..1][0] == x;
    assert MergeCaps(s, [x], [9, 29]) == MergeOne(s, x, 9);
    var t := MergeOne(s, x, 9).value;
    assert t.caps[1] == x && s.caps[1] == EMPTY_CAP;
    assert FindCap(t.caps, held) == Some(0);
    assert MergeCaps(s, caps, [9, 29]) == MergeOne(t, y, 29);
  }

  lemma FirstSlots(caps: Slots, held: Pubkey, added: Pubkey)
    requires held != added && held != DEFAULT_KEY && added != DEFAULT_KEY
    requires caps[0].mint == held && forall k :: 1 <= k < 8 ==> caps[k] == EMPTY_CAP
    ensures SlotFor(caps, added) == Some(1) && FindCap(caps, held) == Some(0)
  {
    assert caps[1].mint == DEFAULT_KEY && caps[0].mint != DEFAULT_KEY;
    assert FindCap(caps, held) == Some(0);
    NotHeld(caps, added);
    hide FindCap;
    assert PolicyRules.Position(caps, DEFAULT_KEY) == Some(1);
  }

  lemma NotHeld(caps: Slots, mint: Pubkey)
    requires forall k :: 0 <= k < 8 ==> caps[k].mint != mint
    ensures FindCap(caps, mint).None?
  {
  }

  lemma MergeNone(s: Session, b: GrantBody)
    ensures MergeCaps(s, b.caps[..0], b.lifetimeCap) == Ok(s)
  {
  }

  lemma MergeStep(s: Session, b: GrantBody, i: nat)
    requires i < |b.caps|
    ensures MergeCaps(s, b.caps[..i + 1], b.lifetimeCap) ==
            match MergeCaps(s, b.caps[..i], b.lifetimeCap)
            case Err(e) => Err(e)
            case Ok(t) =>
              if i >= |b.lifetimeCap| then Err(BadInstructionLayout) else MergeOne(t, b.caps[i], b.lifetimeCap[i])
  {
    hide MergeOne;
    assert b.caps[..i + 1][..i] == b.caps[..i];
  }

  lemma LeftStep(s: Session, b: GrantBody, i: nat)
    requires i < |b.caps|
    ensures LeftBehind(s, b.caps[..i + 1], b.lifetimeCap) ==
            var t := LeftBehind(s, b.caps[..i], b.lifetimeCap);
            if MergeCaps(s, b.caps[..i], b.lifetimeCap).Err? || i >= |b.lifetimeCap| then t
            else if MergeOne(t, b.caps[i], b.lifetimeCap[i]).Ok? then MergeOne(t, b.caps[i], b.lifetimeCap[i]).value
            else t
  {
    hide MergeOne, MergeCaps;
    assert b.caps[..i + 1][..i] == b.caps[..i];
  }

  lemma {:induction false} MergeFails(s: Session, b: GrantBody, i: nat)
    requires i <= |b.caps| && MergeCaps(s, b.caps[..i], b.lifetimeCap).Err?
    ensures MergeCaps(s, b.caps, b.lifetimeCap) == MergeCaps(s, b.caps[..i], b.lifetimeCap)
    ensures LeftBehind(s, b.caps, b.lifetimeCap) == LeftBehind(s, b.caps[..i], b.lifetimeCap)
    decreases |b.caps| - i
  {
    hide MergeCaps, LeftBehind;
    if i < |b.caps| {
      MergeStep(s, b, i);
      LeftStep(s, b, i);
      MergeFails(s, b, i + 1);
    } else {
      assert b.caps[..i] == b.caps;
    }
  }
}
