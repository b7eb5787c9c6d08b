/**
  Creating an account and the root instructions that change only the account itself: rotating the
  nonce, freezing and the timelocked unfreezing. Every check is made in the program's order.
*/
module Lifecycle {
  import opened Base
  import Buckets
  import Wire
  import opened State
  import opened PolicyRules
  import opened RootVerify
  import ClientDataJson
  import Honest

  /** "account" */
  const ACCOUNT_SEED: Bytes := [0x61, 0x63, 0x63, 0x6F, 0x75, 0x6E, 0x74]

  /** "chrome-extension://" */
  const ORIGIN_PREFIX: Bytes :=
    [0x63, 0x68, 0x72, 0x6F, 0x6D, 0x65, 0x2D, 0x65, 0x78, 0x74, 0x65, 0x6E, 0x73, 0x69, 0x6F, 0x6E, 0x3A, 0x2F, 0x2F]

  const CANONICAL_ORIGIN_LEN: nat := 51

  /** The field prime of P-256, big-endian. */
  const P256_FIELD_PRIME_BE: Bytes :=
    [0xFF, 0xFF, 0xFF, 0xFF, 0x00, 0x00, 0x00, 0x01, 0x00, 0x00, 0x00, 0x00, 0x00, 0x00, 0x00, 0x00,
     0x00, 0x00, 0x00, 0x00, 0xFF, 0xFF, 0xFF, 0xFF, 0xFF, 0xFF, 0xFF, 0xFF, 0xFF, 0xFF, 0xFF, 0xFF]

  /** The fixed byte strings spell their names. */
  lemma NamesAreText()
    ensures ClientDataJson.TYPE_KEY == Ascii("type") && ClientDataJson.CHALLENGE_KEY == Ascii("challenge")
    ensures ClientDataJson.ORIGIN_KEY == Ascii("origin") && ClientDataJson.CROSS_KEY == Ascii("crossOrigin")
    ensures WEBAUTHN_GET == Ascii("webauthn.get") && ACCOUNT_SEED == Ascii("account")
    ensures ORIGIN_PREFIX == Ascii("chrome-extension://")
  {
  }

  // ---------------------------------------------------------------- program addresses

  datatype Pda = Pda(key: Pubkey, bump: Byte)

  /** The first bump, counting down from `bump`, that yields an address. */
  function FindFrom(env: Env, seeds: seq<Bytes>, bump: Byte): (r: Option<Pda>)
    ensures r.Some? ==> 0 < r.value.bump <= bump && env.createAddress(seeds + [[r.value.bump]]) == Some(r.value.key)
    ensures forall b: Byte :: (if r.Some? then r.value.bump else 0) < b <= bump ==> env.createAddress(seeds + [[b]]).None?
    decreases bump
  {
    if bump == 0 then None
    else
      match env.createAddress(seeds + [[bump]])
      case Some(key) => Some(Pda(key, bump))
      case None => FindFrom(env, seeds, bump - 1)
  }

  function FindAddress(env: Env, seeds: seq<Bytes>): (r: Option<Pda>)
    ensures r.Some? ==> 0 < r.value.bump && env.createAddress(seeds + [[r.value.bump]]) == Some(r.value.key)
    ensures forall b: Byte :: (if r.Some? then r.value.bump else 0) < b ==> env.createAddress(seeds + [[b]]).None?
  {
    FindFrom(env, seeds, 255)
  }

  /** The account must sit at the address derived from the seeds it stores itself. */
  function CheckAccountPda(env: Env, key: Pubkey, a: Account): Outcome {
    Require(env.createAddress([ACCOUNT_SEED, a.ownerSeed, [a.bump]]) == Some(key), Unauthorized)
  }

  // ---------------------------------------------------------------- creation

  datatype CreateArgs = CreateArgs(
    ownerSeed: Hash, root: RootKey, rpIdHash: Hash, origin: Bytes, clusterTag: Hash, policy: PolicyArgs)

  /** Big-endian comparison of equally long byte strings. */
  predicate Less(s: Bytes, t: Bytes)
    requires |s| == |t|
  {
    s != [] && (s[0] < t[0] || (s[0] == t[0] && Less(s[1..], t[1..])))
  }

  function BigEndian(s: Bytes): nat {
    if s == [] then 0 else 256 * BigEndian(s[..|s| - 1]) + s[|s| - 1]
  }

  /** The byte order is the order of the numbers the strings spell. */
  lemma {:induction false} LessIsSmaller(s: Bytes, t: Bytes)
    requires |s| == |t|
    ensures Less(s, t) <==> BigEndian(s) < BigEndian(t)
    decreases |s|
  {
    if s != [] {
      var n := |s| - 1;
      LessIsSmaller(s[..n], t[..n]);
      LessSnoc(s[..n], t[..n], s[n], t[n]);
      SameNumber(s[..n], t[..n]);
      assert s == s[..n] + [s[n]] && t == t[..n] + [t[n]];
    }
  }

  lemma {:induction false} LessSnoc(s: Bytes, t: Bytes, c: Byte, d: Byte)
    requires |s| == |t|
    ensures Less(s + [c], t + [d]) <==> Less(s, t) || (s == t && c < d)
    decreases |s|
  {
    if s == [] {
      assert [] + [c] == [c] && [] + [d] == [d];
    } else {
      assert (s + [c])[1..] == s[1..] + [c] && (t + [d])[1..] == t[1..] + [d];
      LessSnoc(s[1..], t[1..], c, d);
      assert s == [s[0]] + s[1..] && t == [t[0]] + t[1..];
    }
  }

  lemma {:induction false} SameNumber(s: Bytes, t: Bytes)
    requires |s| == |t|
    ensures BigEndian(s) == BigEndian(t) <==> s == t
    decreases |s|
  {
    if s != [] {
      var n := |s| - 1;
      SameNumber(s[..n], t[..n]);
      assert s == s[..n] + [s[n]] && t == t[..n] + [t[n]];
    }
  }

  function ValidateRoot(r: RootKey): Outcome {
    match r
    case Ed25519(_) => Fail(RootKindUnsupported)
    case P256Passkey(key) =>
      if key[0] != 2 && key[0] != 3 then Fail(InvalidRootKey)
      else Require(Less(key[1..], P256_FIELD_PRIME_BE), InvalidRootKey)
  }

  predicate IsExtensionId(s: Bytes) { forall k :: 0 <= k < |s| ==> 0x61 <= s[k] <= 0x70 }

  function ValidateOrigin(origin: Bytes): Outcome {
    Require(|origin| == CANONICAL_ORIGIN_LEN && ORIGIN_PREFIX <= origin && IsExtensionId(origin[|ORIGIN_PREFIX|..]),
            InvalidOrigin)
  }

  /** The 64-byte field a checked origin is stored in. */
  function StoredOrigin(origin: Bytes): Origin
    requires |origin| <= 64
  {
    origin + Zeros(64 - |origin|)
  }

  /** A new account before its root and freeze tags are written. */
  function Untagged(args: CreateArgs, rpIdHash: Hash, policy: Policy, bump: Byte): Account
    requires |args.origin| <= 64
  {
    Account(1, bump, 0, |args.origin|, 0, 0, args.ownerSeed, Zeros(33), rpIdHash, StoredOrigin(args.origin),
            args.clusterTag, 0, 0, 0, 0, policy.(version := 1), EmptyBuckets(8))
  }

  function NewAccount(args: CreateArgs, rpIdHash: Hash, policy: Policy, bump: Byte): Account
    requires |args.origin| <= 64
  {
    SetFrozen(SetRoot(Untagged(args, rpIdHash, policy, bump), args.root), NotFrozen)
  }

  function CreateAccount(env: Env, args: CreateArgs, bump: Byte): Result<Account> {
    var rpIdHash := env.sha256(args.origin);
    :- ValidateRoot(args.root);
    :- ValidateOrigin(args.origin);
    :- Require(args.clusterTag != Zeros(32), ZeroClusterTag);
    :- Require(rpIdHash == args.rpIdHash, InvalidRootAssertion);
    var policy :- Expand(args.policy);
    :- ValidatePolicy(policy);
    Ok(NewAccount(args, rpIdHash, policy, bump))
  }

  /** A compressed P-256 point encoding: a sign byte and a number below the field prime. */
  ghost predicate RootAdmissible(r: RootKey) {
    && r.P256Passkey? && (r.pubkey[0] == 2 || r.pubkey[0] == 3)
    && BigEndian(r.pubkey[1..]) < BigEndian(P256_FIELD_PRIME_BE)
  }

  /** The origin of some Chrome extension. */
  ghost predicate OriginAdmissible(origin: Bytes) {
    exists id :: |id| == 32 && IsExtensionId(id) && origin == ORIGIN_PREFIX + id
  }

  lemma OriginDecides(origin: Bytes)
    ensures ValidateOrigin(origin).Pass? <==> OriginAdmissible(origin)
  {
    hide IsExtensionId;
    if ValidateOrigin(origin).Pass? { assert origin == ORIGIN_PREFIX + origin[19..]; }
    if OriginAdmissible(origin) {
      var id :| |id| == 32 && IsExtensionId(id) && origin == ORIGIN_PREFIX + id;
      assert origin[19..] == id;
    }
  }

  /**
    An account can be created exactly from an admissible root and origin, a real cluster tag, the origin's
    hash and a policy in order.
  */
  lemma CreateDecides(env: Env, args: CreateArgs, bump: Byte)
    ensures CreateAccount(env, args, bump).Ok? <==>
              && RootAdmissible(args.root) && OriginAdmissible(args.origin) && args.clusterTag != Zeros(32)
              && args.rpIdHash == env.sha256(args.origin)
              && Expand(args.policy).Ok? && MintsAmong(args.policy.sessionCeiling, args.policy.caps) && WirePolicyOk(args.policy)
  {
    hide Expand, ValidatePolicy, WirePolicyOk, OriginAdmissible, ValidateOrigin, Less, Zeros, BigEndian, NewAccount;
    OriginDecides(args.origin);
    if args.root.P256Passkey? { LessIsSmaller(args.root.pubkey[1..], P256_FIELD_PRIME_BE); }
    if Expand(args.policy).Ok? { ValidationIsByMint(args.policy); }
    if ValidateOrigin(args.origin).Pass? { OriginIsPlain(args.origin); }
  }

  /** A refused creation names the first of its conditions that fails. */
  lemma RefusalIsNamed(env: Env, args: CreateArgs, bump: Byte)
    requires CreateAccount(env, args, bump).Err?
    ensures CreateAccount(env, args, bump).error
         == if args.root.Ed25519? then RootKindUnsupported
            else if !RootAdmissible(args.root) then InvalidRootKey
            else if !OriginAdmissible(args.origin) then InvalidOrigin
            else if args.clusterTag == Zeros(32) then ZeroClusterTag
            else if args.rpIdHash != env.sha256(args.origin) then InvalidRootAssertion
            else if Expand(args.policy).Err? then InvalidAccountData else InvalidPolicy
  {
    hide Expand, ValidatePolicy, OriginAdmissible, ValidateOrigin, Less, Zeros, BigEndian, NewAccount;
    OriginDecides(args.origin);
    if ValidateOrigin(args.origin).Fail? { OriginFailure(args.origin); }
    if args.root.P256Passkey? { LessIsSmaller(args.root.pubkey[1..], P256_FIELD_PRIME_BE); }
    if Expand(args.policy).Err? {
      ExpandFailure(args.policy);
    } else if ValidatePolicy(Expand(args.policy).value).Fail? {
      PolicyFailure(Expand(args.policy).value);
    }
  }

  lemma OriginFailure(origin: Bytes)
    requires ValidateOrigin(origin).Fail?
    ensures ValidateOrigin(origin).error == InvalidOrigin
  {
  }

  lemma PolicyFailure(p: Policy)
    requires ValidatePolicy(p).Fail?
    ensures ValidatePolicy(p).error == InvalidPolicy
  {
  }

  /** What holds of every account from its creation on. */
  ghost predicate AccountOk(a: Account) {
    PolicyOk(a.policy) && Honest.CeremonyReady(a) && a.frozenKind <= 1
  }

  lemma OriginIsPlain(origin: Bytes)
    requires ValidateOrigin(origin).Pass?
    ensures |origin| == 51 && Honest.IsPlain(StoredOrigin(origin)[..51])
  {
    hide Zeros;
    var stored := StoredOrigin(origin);
    assert stored[..51] == origin;
    forall k | 0 <= k < 51 ensures Honest.IsPlainByte(origin[k]) {
      if k < 19 { assert origin[k] == ORIGIN_PREFIX[k]; } else { assert origin[k] == origin[19..][k - 19]; }
    }
  }

  /** What creation fixes for good is what was asked for: identity, root, origin, cluster and the whole policy. */
  ghost predicate SetupAs(env: Env, a: Account, args: CreateArgs) {
    && a.version == 1 && a.ownerSeed == args.ownerSeed && a.rootKind == 0 && args.root == P256Passkey(a.rootPubkey)
    && a.originLen == |args.origin| <= 64 && a.origin[..a.originLen] == args.origin
    && a.rpIdHash == args.rpIdHash == env.sha256(args.origin) && a.clusterTag == args.clusterTag && a.generation == 0
    && a.policy.version == 1 && PolicyAs(a.policy, args.policy)
  }

  /** Nothing signed, nothing frozen, nothing spent. */
  ghost predicate Untouched(a: Account) {
    && a.rootNonce == 0 && a.frozenKind == a.frozenGuardianIdx == 0 && a.frozenUntil == a.frozenAt == 0
    && forall k :: 0 <= k < 8 ==> a.buckets[k] == Buckets.EMPTY_BUCKET
  }

  /**
    A new account is set up as asked for, can hold honest ceremonies, has an ordered policy, and has neither
    spent nor signed anything.
  */
  lemma CreatedIsReady(env: Env, args: CreateArgs, bump: Byte)
    requires CreateAccount(env, args, bump).Ok?
    ensures var a := CreateAccount(env, args, bump).value;
            AccountOk(a) && SetupAs(env, a, args) && Untouched(a) && a.bump == bump
  {
    hide Expand, ValidatePolicy, ValidateOrigin, StoredOrigin, Less, PolicyOk, Honest.IsPlain, EmptyBuckets, Zeros, PolicyAs;
    var policy := Expand(args.policy).value;
    ExpandedIsOk(args.policy);
    ExpandedAs(args.policy);
    VersionIrrelevant(policy);
    SameButVersion(policy, args.policy);
    OriginIsPlain(args.origin);
    OriginIsStored(args.origin);
  }

  lemma OriginIsStored(origin: Bytes)
    requires |origin| <= 64
    ensures StoredOrigin(origin)[..|origin|] == origin
  {
    hide Zeros;
  }

  lemma SameButVersion(q: Policy, p: PolicyArgs)
    requires PolicyAs(q, p)
    ensures PolicyAs(q.(version := 1), p)
  {
    hide Lookup;
  }

  lemma VersionIrrelevant(p: Policy)
    requires PolicyOk(p)
    ensures PolicyOk(p.(version := 1))
  {
    hide SubMask;
    var n :| 0 <= n <= 4 && UsedSlots(p, n);
    assert UsedSlots(p.(version := 1), n);
    assert forall k :: 0 <= k < 8 ==> SlotOrdered(p, k) ==> SlotOrdered(p.(version := 1), k);
  }

  // ---------------------------------------------------------------- root instructions on the account alone

  function CheckNotFrozen(a: Account, error: Error): Outcome {
    match FrozenTag(a)
    case Err(e) => Fail(e)
    case Ok(f) => Require(f.NotFrozen?, error)
  }

  function Rotate(env: Env, a: Account, key: Pubkey, cx: Context, root: RootArgs): Result<Account> {
    var home := CheckAccountPda(env, key, a);
    :- home;
    VerifyRoot(env, a, cx, root, key, ActionHash(env, Wire.RotateNonce))
  }

  function Freeze(env: Env, a: Account, key: Pubkey, cx: Context, root: RootArgs): Result<Account> {
    var home := CheckAccountPda(env, key, a);
    :- home;
    var b :- VerifyRoot(env, a, cx, root, key, ActionHash(env, Wire.FreezeAccount));
    :- CheckNotFrozen(b, AlreadyFrozen);
    Ok(SetFrozen(b, FrozenByRoot).(frozenAt := cx.now))
  }

  function CheckLiftable(a: Account, now: I64): Outcome {
    match FrozenTag(a)
    case Err(e) => Fail(e)
    case Ok(NotFrozen) => Fail(InvalidAccountData)
    case Ok(FrozenByGuardian(_, _)) => Fail(Frozen)
    case Ok(FrozenByRoot) =>
      var unlockAt := a.frozenAt + a.policy.timelockSecs;
      if unlockAt >= I64_LIMIT || unlockAt < -I64_LIMIT then Fail(Overflow)
      else Require(now >= unlockAt, TimelockNotElapsed)
  }

  function Unfreeze(env: Env, a: Account, key: Pubkey, cx: Context, root: RootArgs): Result<Account> {
    var home := CheckAccountPda(env, key, a);
    :- home;
    var b :- VerifyRoot(env, a, cx, root, key, ActionHash(env, Wire.UnfreezeAccount));
    :- CheckLiftable(b, cx.now);
    Ok(SetFrozen(b, NotFrozen).(frozenAt := 0))
  }
}
