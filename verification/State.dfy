/** The accounts the program owns, and the environment it runs in. */
module State {
  import opened Base
  import Buckets
  import Wire
  import Precompile

  const MAX_MINT_CAPS: nat := 8

  function EmptySlots(n: nat): (s: seq<Buckets.MintCap>)
    ensures |s| == n && forall k :: 0 <= k < n ==> s[k] == Buckets.EMPTY_CAP
  {
    if n == 0 then [] else EmptySlots(n - 1) + [Buckets.EMPTY_CAP]
  }

  function EmptyAmounts(n: nat): (s: seq<U64>)
    ensures |s| == n && forall k :: 0 <= k < n ==> s[k] == 0
  {
    if n == 0 then [] else EmptyAmounts(n - 1) + [0]
  }

  type Slots = s: seq<Buckets.MintCap> | |s| == 8 witness EmptySlots(8)
  type Amounts = s: seq<U64> | |s| == 8 witness EmptyAmounts(8)
  type Key33 = s: Bytes | |s| == 33 witness Zeros(33)
  type Origin = s: Bytes | |s| == 64 witness Zeros(64)
  type BucketArray = s: seq<Buckets.Bucket> | |s| == 8 witness EmptyBuckets(8)

  function EmptyBuckets(n: nat): (s: seq<Buckets.Bucket>)
    ensures |s| == n && forall k :: 0 <= k < n ==> s[k] == Buckets.EMPTY_BUCKET
  {
    if n == 0 then [] else EmptyBuckets(n - 1) + [Buckets.EMPTY_BUCKET]
  }

  datatype Policy = Policy(
    version: U32, caps: Slots, sessionCeiling: Slots, largeThreshold: Slots, timelockSecs: I64,
    recoveryDelaySecs: I64, maxSessionLifeSecs: I64, sessionOpsCeiling: U16)

  /** The smart account; `rootKind` and `frozenKind` are the stored tags. */
  datatype Account = Account(
    version: Byte, bump: Byte, rootKind: Byte, originLen: Byte, frozenKind: Byte, frozenGuardianIdx: Byte,
    ownerSeed: Hash, rootPubkey: Key33, rpIdHash: Hash, origin: Origin, clusterTag: Hash, generation: U64,
    rootNonce: U64, frozenUntil: I64, frozenAt: I64, policy: Policy, buckets: BucketArray)

  datatype Session = Session(
    version: Byte, bump: Byte, account: Pubkey, pubkey: Pubkey, kind: Byte, expiryTs: I64, opsMask: U16,
    generationAtGrant: U64, caps: Slots, lifetimeCap: Amounts, lifetimeSpent: Amounts, programAllowlistId: U16,
    displayLabel: Wire.Label)

  datatype RootKey = P256Passkey(pubkey: Key33) | Ed25519(key: Pubkey)

  datatype FrozenState = NotFrozen | FrozenByRoot | FrozenByGuardian(idx: Byte, until: I64)

  function Root(a: Account): Result<RootKey> {
    if a.rootKind == 0 then Ok(P256Passkey(a.rootPubkey))
    else if a.rootKind == 1 then Ok(Ed25519(a.rootPubkey[..32]))
    else Err(InvalidAccountData)
  }

  function SetRoot(a: Account, r: RootKey): Account {
    match r
    case P256Passkey(key) => a.(rootKind := 0, rootPubkey := key)
    case Ed25519(key) => a.(rootKind := 1, rootPubkey := key + [0])
  }

  function FrozenTag(a: Account): Result<FrozenState> {
    if a.frozenKind == 0 then Ok(NotFrozen)
    else if a.frozenKind == 1 then Ok(FrozenByRoot)
    else if a.frozenKind == 2 then Ok(FrozenByGuardian(a.frozenGuardianIdx, a.frozenUntil))
    else Err(InvalidAccountData)
  }

  function SetFrozen(a: Account, f: FrozenState): Account {
    match f
    case NotFrozen => a.(frozenKind := 0, frozenGuardianIdx := 0, frozenUntil := 0)
    case FrozenByRoot => a.(frozenKind := 1, frozenGuardianIdx := 0, frozenUntil := 0)
    case FrozenByGuardian(idx, until) => a.(frozenKind := 2, frozenGuardianIdx := idx, frozenUntil := until)
  }

  /** What the enum-shaped state reads back is what was last written. */
  lemma TagsRoundTrip(a: Account, r: RootKey, f: FrozenState)
    ensures Root(SetRoot(a, r)) == Ok(r) && FrozenTag(SetFrozen(a, f)) == Ok(f)
    ensures SetFrozen(a, f).(frozenKind := a.frozenKind, frozenGuardianIdx := a.frozenGuardianIdx,
                             frozenUntil := a.frozenUntil) == a
  {
    if r.Ed25519? { assert (r.key + [0])[..32] == r.key; }
  }

  function AuthorityOf(s: Session): Wire.Authority { Wire.Authority(s.account, s.pubkey, s.caps, s.lifetimeCap) }

  /** The hash functions, address derivation and program id are parameters of the model. */
  datatype Env = Env(
    keccak: Bytes -> Hash, sha256: Bytes -> Hash, createAddress: seq<Bytes> -> Option<Pubkey>, programId: Pubkey,
    rentFloor: U64)

  /** What the runtime supplies to one instruction. */
  datatype Context = Context(sysvar: Precompile.Sysvar, now: I64)

  datatype RootArgs = RootArgs(
    precompileIxIndex: Byte, authenticatorData: Bytes, clientDataJson: Bytes, expiryTs: I64)
}
