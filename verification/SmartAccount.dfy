/** The smart account as the program updates it in place. */
module SmartAccount {
  import opened Base
  import opened Buckets
  import Wire
  import opened State
  import opened RootVerify
  import Transfers
  import Base64Url
  import ClientDataJson
  import Precompile
  import Scanner

  ghost predicate Separate(bs: seq<MintBuckets>) {
    && (forall k :: 0 <= k < |bs| ==> bs[k].Valid())
    && (forall j, k :: 0 <= j < k < |bs| ==> bs[j] != bs[k] && bs[j].ring != bs[k].ring)
  }

  ghost function Rings(bs: seq<MintBuckets>): set<object> { set k | 0 <= k < |bs| :: bs[k].ring as object }

  ghost function Values(bs: seq<MintBuckets>): (r: seq<Bucket>)
    requires Separate(bs)
    reads bs, Rings(bs)
    ensures |r| == |bs| && forall k :: 0 <= k < |bs| ==> r[k] == bs[k].Value()
  {
    if bs == [] then [] else Values(bs[..|bs| - 1]) + [bs[|bs| - 1].Value()]
  }

  const BLANK_POLICY := Policy(0, EmptySlots(8), EmptySlots(8), EmptySlots(8), 0, 0, 0, 0)

  const BLANK_ACCOUNT := Account(0, 0, 0, 0, 0, 0, Zeros(32), Zeros(33), Zeros(32), Zeros(64), Zeros(32), 0, 0, 0, 0,
                                 BLANK_POLICY, EmptyBuckets(8))

  class SmartAccount {
    var version: Byte
    var bump: Byte
    var rootKind: Byte
    var originLen: Byte
    var frozenKind: Byte
    var frozenGuardianIdx: Byte
    var ownerSeed: Hash
    var rootPubkey: Key33
    var rpIdHash: Hash
    var origin: Origin
    var clusterTag: Hash
    var generation: U64
    var rootNonce: U64
    var frozenUntil: I64
    var frozenAt: I64
    var policy: Policy
    const buckets: seq<MintBuckets>

    ghost predicate Valid() { |buckets| == 8 && Separate(buckets) }

    ghost function Value(): Account
      requires Valid()
      reads this, buckets, Rings(buckets)
    {
      Account(version, bump, rootKind, originLen, frozenKind, frozenGuardianIdx, ownerSeed, rootPubkey, rpIdHash, origin,
              clusterTag, generation, rootNonce, frozenUntil, frozenAt, policy, Values(buckets))
    }

    /** The zero-filled account the framework allocates. */
    constructor ()
      ensures Valid() && fresh(this) && fresh(buckets) && fresh(Rings(buckets))
      ensures Value() == BLANK_ACCOUNT
    {
      var bs: seq<MintBuckets> := [];
      for i := 0 to 8
        invariant |bs| == i && Separate(bs) && fresh(bs) && fresh(Rings(bs))
        invariant forall k :: 0 <= k < i ==> bs[k].Value() == EMPTY_BUCKET
      {
        var b := new MintBuckets();
        ghost var others := Rings(bs);
        bs := bs + [b];
        assert Rings(bs) <= others + {b.ring};
      }
      version, bump, rootKind, originLen, frozenKind, frozenGuardianIdx := 0, 0, 0, 0, 0, 0;
      ownerSeed, rootPubkey, rpIdHash, origin, clusterTag := Zeros(32), Zeros(33), Zeros(32), Zeros(64), Zeros(32);
      generation, rootNonce, frozenUntil, frozenAt, policy := 0, 0, 0, 0, BLANK_POLICY;
      buckets := bs;
      new;
      hide EmptyBuckets, Zeros, EmptySlots;
      assert Values(buckets) == EmptyBuckets(8);
    }

    method SetRoot(r: RootKey)
      requires Valid()
      modifies this
      ensures Value() == State.SetRoot(old(Value()), r)
    {
      match r
      case P256Passkey(key) =>
        rootKind, rootPubkey := 0, key;
      case Ed25519(key) =>
        rootKind, rootPubkey := 1, key + [0];
    }

    method SetFrozen(f: FrozenState)
      requires Valid()
      modifies this
      ensures Value() == State.SetFrozen(old(Value()), f)
    {
      match f
      case NotFrozen =>
        frozenKind, frozenGuardianIdx, frozenUntil := 0, 0, 0;
      case FrozenByRoot =>
        frozenKind, frozenGuardianIdx, frozenUntil := 1, 0, 0;
      case FrozenByGuardian(idx, until) =>
        frozenKind, frozenGuardianIdx, frozenUntil := 2, idx, until;
    }
  
    method Frozen() returns (r: Result<FrozenState>)
      requires Valid()
      ensures r == FrozenTag(Value())
    {
      if frozenKind == 0 { return Ok(NotFrozen); }
      if frozenKind == 1 { return Ok(FrozenByRoot); }
      if frozenKind == 2 { return Ok(FrozenByGuardian(frozenGuardianIdx, frozenUntil)); }
      return Err(InvalidAccountData);
    }

    method EncodedTranscript(env: Env, key: Pubkey, nonce: U64, expiry: I64, actionHash: Hash) returns (text: Bytes)
      requires Valid()
      ensures text == Challenge(env, TranscriptFor(env, Value(), key, nonce, expiry, actionHash))
    {
      var t := Wire.Transcript(clusterTag, env.programId, key, generation, policy.version, nonce, expiry, actionHash);
      text := Base64Url.B64UrlNoPad(env.keccak(Wire.TranscriptPreimage(t)));
    }

    /** Steps 2 to 4 of the ceremony: the authenticator data and the client data; the challenge is returned. */
    method CheckAssertion(args: RootArgs) returns (r: Result<Bytes>)
      requires Valid()
      ensures r == match CheckAuthData(args.authenticatorData, rpIdHash)
                   case Fail(e) => Err(e)
                   case Pass => CheckClientData(Value(), args.clientDataJson)
    {
      hide ClientDataJson.ParseStrict, FlagsOk;
      match CheckAuthData(args.authenticatorData, rpIdHash) {
        case Fail(e) => return Err(e);
        case Pass =>
      }
      var cd :- Scanner.ParseStrict(args.clientDataJson);
      if cd.typ != WEBAUTHN_GET { return Err(ClientDataTypeMismatch); }
      if cd.crossOriginTrue { return Err(CrossOriginNotAllowed); }
      if originLen > 64 { return Err(InvalidAccountData); }
      if cd.origin != origin[..originLen] { return Err(OriginMismatch); }
      return Ok(cd.challenge);
    }

    method CheckFresh(env: Env, key: Pubkey, expiry: I64, actionHash: Hash, challenge: Bytes) returns (r: Outcome)
      requires Valid()
      ensures r == CheckChallenge(env, Value(), key, expiry, actionHash, challenge)
    {
      hide Challenge;
      ghost var a := Value();
      var expected := EncodedTranscript(env, key, rootNonce, expiry, actionHash);
      if challenge != expected {
        if rootNonce > 0 {
          var replayed := EncodedTranscript(env, key, rootNonce - 1, expiry, actionHash);
          assert Value() == a;
          if challenge == replayed {
            return Fail(NonceMismatch);
          }
        }
        return Fail(ChallengeMismatch);
      }
      return Pass;
    }

    /** Verifies an assertion and, as its very last act, consumes the nonce; a refusal changes nothing. */
    method VerifyRootAssertion(env: Env, cx: Context, args: RootArgs, key: Pubkey, actionHash: Hash) returns (r: Result<()>)
      requires Valid()
      modifies this`rootNonce
      ensures match VerifyRoot(env, old(Value()), cx, args, key, actionHash)
              case Err(e) => r == Err(e) && Value() == old(Value())
              case Ok(a) => r.Ok? && Value() == a
    {
      hide CheckFreshness, CheckChallenge, Precompile.Bind, Values, FlagsOk, ClientDataJson.ParseStrict;
      if rootKind == 1 { return Err(RootKindUnsupported); }
      if rootKind != 0 { return Err(InvalidAccountData); }
      ghost var a := Value();
      var challenge :- CheckAssertion(args);
      assert Value() == a;
      match CheckFreshness(cx.now, args.expiryTs) {
        case Fail(e) => return Err(e);
        case Pass =>
      }
      var due := CheckFresh(env, key, args.expiryTs, actionHash, challenge);
      assert Value() == a;
      if due.Fail? { return Err(due.error); }
      var message: Bytes := [];
      message := message + args.authenticatorData;
      message := message + env.sha256(args.clientDataJson);
      assert message == SignedMessage(env, args);
      match Precompile.Bind(cx.sysvar, args.precompileIxIndex, rootPubkey, message) {
        case Fail(e) => return Err(e);
        case Pass =>
      }
      if rootNonce + 1 >= U64_LIMIT { return Err(Overflow); }
      rootNonce := rootNonce + 1;
      return Ok(());
    }

    /** Charges one bucket; the others, and on a refusal this one too, stay as they were. */
    method Debit(mint: Pubkey, amount: U64, now: I64) returns (r: Result<()>)
      requires Valid()
      modifies buckets, Rings(buckets)
      ensures match Transfers.ChargeAccount(old(Value()), mint, amount, now)
              case Err(e) => r == Err(e) && Value() == old(Value())
              case Ok(a) => r.Ok? && Value() == a
    {
      hide FindCap, Debited;
      var found := FindCap(policy.caps, mint);
      if found.None? { return Err(CapExceeded); }
      var k := found.value;
      ghost var was := Values(buckets);
      assert buckets[k].ring in Rings(buckets);
      r := buckets[k].Debit(policy.caps[k], amount, now);
      if r.Ok? {
        assert Values(buckets) == was[k := buckets[k].Value()];
      } else {
        assert Values(buckets) == was;
      }
    }
  }
}
