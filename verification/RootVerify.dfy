/**
  The root ceremony: seven checks against the account's current state, then the nonce is consumed.
  `VerifiedMeans` says exactly when it passes, in terms of what the signer and the runtime vouch for, and
  `SignedIsExecuted` shows that what was signed is what is executed.
*/
module RootVerify {
  import opened Base
  import opened Wire
  import opened State
  import opened Precompile
  import opened ClientDataJson
  import PolicyRules
  import Base64Url

  const MAX_ROOT_EXPIRY_SECS: int := 600
  const AUTH_DATA_MIN_LEN: nat := 37

  /** "webauthn.get" */
  const WEBAUTHN_GET: Bytes := [0x77, 0x65, 0x62, 0x61, 0x75, 0x74, 0x68, 0x6E, 0x2E, 0x67, 0x65, 0x74]

  /** User present and user verified. */
  predicate FlagsOk(flags: Byte) { flags % 2 == 1 && flags / 4 % 2 == 1 }

  function CheckAuthData(auth: Bytes, rpIdHash: Hash): Outcome {
    if |auth| < AUTH_DATA_MIN_LEN then Fail(AuthDataTooShort)
    else if auth[..32] != rpIdHash then Fail(RpIdHashMismatch)
    else if !FlagsOk(auth[32]) then Fail(UserVerificationRequired)
    else Pass
  }

  function CheckRootKind(a: Account): Result<Key33> {
    match Root(a)
    case Err(e) => Err(e)
    case Ok(Ed25519(_)) => Err(RootKindUnsupported)
    case Ok(P256Passkey(key)) => Ok(key)
  }

  /** The semantic checks on the client data; the challenge is returned for the next step. */
  function CheckClientData(a: Account, cdj: Bytes): Result<Bytes> {
    match ParseStrict(cdj)
    case Err(e) => Err(e)
    case Ok(cd) =>
      if cd.typ != WEBAUTHN_GET then Err(ClientDataTypeMismatch)
      else if cd.crossOriginTrue then Err(CrossOriginNotAllowed)
      else if a.originLen > 64 then Err(InvalidAccountData)
      else if cd.origin != a.origin[..a.originLen] then Err(OriginMismatch)
      else Ok(cd.challenge)
  }

  function CheckFreshness(now: I64, expiry: I64): Outcome {
    if now > expiry then Fail(Expired)
    else if now + MAX_ROOT_EXPIRY_SECS >= I64_LIMIT then Fail(Overflow)
    else if expiry > now + MAX_ROOT_EXPIRY_SECS then Fail(Expired)
    else Pass
  }

  function TranscriptFor(env: Env, a: Account, key: Pubkey, nonce: U64, expiry: I64, actionHash: Hash): Transcript {
    Transcript(a.clusterTag, env.programId, key, a.generation, a.policy.version, nonce, expiry, actionHash)
  }

  /** What the browser puts into `challenge` for a transcript. */
  function Challenge(env: Env, t: Transcript): Bytes { Base64Url.Encode(env.keccak(TranscriptPreimage(t))) }

  function CheckChallenge(env: Env, a: Account, key: Pubkey, expiry: I64, actionHash: Hash, challenge: Bytes): Outcome {
    if challenge == Challenge(env, TranscriptFor(env, a, key, a.rootNonce, expiry, actionHash)) then Pass
    else if a.rootNonce > 0
         && challenge == Challenge(env, TranscriptFor(env, a, key, a.rootNonce - 1, expiry, actionHash))
    then Fail(NonceMismatch)
    else Fail(ChallengeMismatch)
  }

  /** The message the authenticator signs. */
  function SignedMessage(env: Env, args: RootArgs): Bytes {
    args.authenticatorData + env.sha256(args.clientDataJson)
  }

  function VerifyRoot(env: Env, a: Account, cx: Context, args: RootArgs, key: Pubkey, actionHash: Hash): Result<Account> {
    var rootKey :- CheckRootKind(a);
    :- CheckAuthData(args.authenticatorData, a.rpIdHash);
    var challenge :- CheckClientData(a, args.clientDataJson);
    :- CheckFreshness(cx.now, args.expiryTs);
    :- CheckChallenge(env, a, key, args.expiryTs, actionHash, challenge);
    :- Bind(cx.sysvar, args.precompileIxIndex, rootKey, SignedMessage(env, args));
    :- Require(a.rootNonce + 1 < U64_LIMIT, Overflow);
    Ok(a.(rootNonce := a.rootNonce + 1))
  }

  function ActionHash(env: Env, action: Action): Hash { env.keccak(ActionPreimage(action)) }

  // ---------------------------------------------------------------- what a success means

  /** The current transcript of an action. */
  function CurrentTranscript(env: Env, a: Account, key: Pubkey, expiry: I64, action: Action): Transcript {
    TranscriptFor(env, a, key, a.rootNonce, expiry, ActionHash(env, action))
  }

  /** The runtime verified, in an earlier instruction and inside it, one signature by this key over this message. */
  ghost predicate RuntimeVerified(s: Sysvar, ix: Byte, key: Bytes, message: Bytes) {
    && ix < s.current && ix < |s.ixs|
    && (exists signature :: Claims(s.ixs, ix) == Some([Claim(key, signature, message)]))
    && |s.ixs[ix].data| >= 16
    && U16At(s.ixs[ix].data, 4) == U16At(s.ixs[ix].data, 8) == U16At(s.ixs[ix].data, 14) == SAME_INSTRUCTION
  }

  /** Present and verified user (bits 0 and 2), at the account's relying party. */
  ghost predicate AuthenticatorValid(a: Account, auth: Bytes) {
    |auth| >= AUTH_DATA_MIN_LEN && auth[..32] == a.rpIdHash && PolicyRules.Bit(auth[32], 0) && PolicyRules.Bit(auth[32], 2)
  }

  /** A same-origin assertion from the account's origin, over the challenge of this transcript. */
  ghost predicate ClientDataValid(env: Env, a: Account, cdj: Bytes, t: Transcript) {
    && ParseStrict(cdj).Ok? && a.originLen <= 64
    && ParseStrict(cdj).value
       == ClientData(WEBAUTHN_GET, Base64Url.Encode(env.keccak(TranscriptPreimage(t))), a.origin[..a.originLen], false)
  }

  /** The account's own fields, the given key and expiry, and the digest of the action. */
  ghost predicate TranscriptFits(env: Env, a: Account, key: Pubkey, expiry: I64, action: Action, t: Transcript) {
    t == Transcript(a.clusterTag, env.programId, key, a.generation, a.policy.version, a.rootNonce, expiry,
                    env.keccak(ActionPreimage(action)))
  }

  ghost predicate CeremonyValid(env: Env, a: Account, cx: Context, args: RootArgs, key: Pubkey, action: Action) {
    && a.rootKind == 0 && AuthenticatorValid(a, args.authenticatorData)
    && (exists t :: TranscriptFits(env, a, key, args.expiryTs, action, t) && ClientDataValid(env, a, args.clientDataJson, t))
    && cx.now <= args.expiryTs <= cx.now + MAX_ROOT_EXPIRY_SECS < I64_LIMIT
    && RuntimeVerified(cx.sysvar, args.precompileIxIndex, a.rootPubkey,
                       args.authenticatorData + env.sha256(args.clientDataJson))
    && a.rootNonce + 1 < U64_LIMIT
  }

  /** A ceremony passes exactly if it is valid, and then it consumes exactly one nonce and changes nothing else. */
  lemma VerifiedMeans(env: Env, a: Account, cx: Context, args: RootArgs, key: Pubkey, action: Action)
    ensures VerifyRoot(env, a, cx, args, key, ActionHash(env, action)).Ok? <==> CeremonyValid(env, a, cx, args, key, action)
    ensures VerifyRoot(env, a, cx, args, key, ActionHash(env, action)).Ok? ==>
              VerifyRoot(env, a, cx, args, key, ActionHash(env, action)).value == a.(rootNonce := a.rootNonce + 1)
  {
    hide ParseStrict, Bind, Claims, Challenge, U16At, AuthenticatorValid, ClientDataValid, CheckAuthData, CheckClientData,
      CheckChallenge, ActionHash;
    BindProves(cx.sysvar, args.precompileIxIndex, a.rootPubkey, args.authenticatorData + env.sha256(args.clientDataJson));
    AuthDataDecides(a, args.authenticatorData);
    CurrentFits(env, a, key, args.expiryTs, action);
    ClientDataDecides(env, a, key, args, ActionHash(env, action), action);
  }

  lemma CurrentFits(env: Env, a: Account, key: Pubkey, expiry: I64, action: Action)
    ensures TranscriptFits(env, a, key, expiry, action, CurrentTranscript(env, a, key, expiry, action))
    ensures forall t :: TranscriptFits(env, a, key, expiry, action, t) ==> t == CurrentTranscript(env, a, key, expiry, action)
  {
    hide ActionPreimage;
  }

  lemma AuthDataDecides(a: Account, auth: Bytes)
    ensures CheckAuthData(auth, a.rpIdHash).Pass? <==> AuthenticatorValid(a, auth)
  {
    if |auth| >= AUTH_DATA_MIN_LEN { LowBits(auth[32]); }
  }

  lemma LowBits(c: Byte)
    ensures FlagsOk(c) <==> PolicyRules.Bit(c, 0) && PolicyRules.Bit(c, 2)
  {
    assert PolicyRules.Bit(c, 2) == PolicyRules.Bit(c / 2, 1) == PolicyRules.Bit(c / 2 / 2, 0);
  }

  lemma ClientDataDecides(env: Env, a: Account, key: Pubkey, args: RootArgs, h: Hash, action: Action)
    requires h == ActionHash(env, action)
    ensures ClientDataValid(env, a, args.clientDataJson, CurrentTranscript(env, a, key, args.expiryTs, action)) <==>
              && CheckClientData(a, args.clientDataJson).Ok?
              && CheckChallenge(env, a, key, args.expiryTs, h, CheckClientData(a, args.clientDataJson).value).Pass?
  {
    hide ParseStrict, TranscriptPreimage, Base64Url.Encode, ActionHash;
  }

  /** The challenge in the client data was made for the account's fields and this nonce. */
  ghost predicate ChallengeIsFor(env: Env, a: Account, cd: ClientData, key: Pubkey, nonce: int, expiry: I64, action: Action) {
    && 0 <= nonce < U64_LIMIT
    && cd.challenge == Base64Url.Encode(env.keccak(TranscriptPreimage(
         Transcript(a.clusterTag, env.programId, key, a.generation, a.policy.version, nonce, expiry,
                    env.keccak(ActionPreimage(action))))))
  }

  /** What is wrong with the parsed client data, if anything: the checks in their order. */
  ghost predicate ClientDataFault(env: Env, a: Account, cx: Context, args: RootArgs, key: Pubkey, action: Action, cd: ClientData,
                                  e: Error) {
    if cd.typ != Ascii("webauthn.get") then e == ClientDataTypeMismatch
    else if cd.crossOriginTrue then e == CrossOriginNotAllowed
    else if a.originLen > 64 then e == InvalidAccountData
    else if cd.origin != a.origin[..a.originLen] then e == OriginMismatch
    else if cx.now > args.expiryTs then e == Expired
    else if cx.now + MAX_ROOT_EXPIRY_SECS >= I64_LIMIT then e == Overflow
    else if args.expiryTs > cx.now + MAX_ROOT_EXPIRY_SECS then e == Expired
    else if !ChallengeIsFor(env, a, cd, key, a.rootNonce, args.expiryTs, action) then
      e == if ChallengeIsFor(env, a, cd, key, a.rootNonce - 1, args.expiryTs, action) then NonceMismatch else ChallengeMismatch
    else if !RuntimeVerified(cx.sysvar, args.precompileIxIndex, a.rootPubkey,
                             args.authenticatorData + env.sha256(args.clientDataJson)) then
      e in {PrecompileNotFound, BadInstructionLayout, PrecompileBindingMismatch}
    else e == Overflow && a.rootNonce + 1 == U64_LIMIT
  }

  lemma ChallengeFaults(env: Env, a: Account, key: Pubkey, expiry: I64, action: Action, cd: ClientData)
    ensures CheckChallenge(env, a, key, expiry, ActionHash(env, action), cd.challenge)
         == if ChallengeIsFor(env, a, cd, key, a.rootNonce, expiry, action) then Pass
            else if ChallengeIsFor(env, a, cd, key, a.rootNonce - 1, expiry, action) then Fail(NonceMismatch)
            else Fail(ChallengeMismatch)
  {
    hide Base64Url.Encode, TranscriptPreimage, ActionPreimage;
  }

  lemma ClientDataRefusal(env: Env, a: Account, cx: Context, args: RootArgs, key: Pubkey, action: Action)
    requires VerifyRoot(env, a, cx, args, key, ActionHash(env, action)).Err? && CheckRootKind(a).Ok?
    requires CheckAuthData(args.authenticatorData, a.rpIdHash).Pass? && ParseStrict(args.clientDataJson).Ok?
    ensures ClientDataFault(env, a, cx, args, key, action, ParseStrict(args.clientDataJson).value,
                            VerifyRoot(env, a, cx, args, key, ActionHash(env, action)).error)
  {
    hide ParseStrict, Bind, U16At, Claims, CheckAuthData, CheckChallenge, ActionHash, ChallengeIsFor, RuntimeVerified;
    var message := args.authenticatorData + env.sha256(args.clientDataJson);
    ChallengeFaults(env, a, key, args.expiryTs, action, ParseStrict(args.clientDataJson).value);
    BindDecides(cx.sysvar, args.precompileIxIndex, a.rootPubkey, message);
    BindFaults(cx.sysvar, args.precompileIxIndex, a.rootPubkey, message);
    TypeIsText();
  }

  lemma BindDecides(s: Sysvar, ix: Byte, key: Bytes, message: Bytes)
    ensures Bind(s, ix, key, message).Pass? <==> RuntimeVerified(s, ix, key, message)
  {
    hide Bind, Claims, U16At;
    BindProves(s, ix, key, message);
  }

  /** A refusal names the first condition that fails, in the order in which the program promises to check them. */
  lemma RefusalIsNamed(env: Env, a: Account, cx: Context, args: RootArgs, key: Pubkey, action: Action)
    requires VerifyRoot(env, a, cx, args, key, ActionHash(env, action)).Err?
    ensures var e, auth := VerifyRoot(env, a, cx, args, key, ActionHash(env, action)).error, args.authenticatorData;
            if a.rootKind != 0 then e == if a.rootKind == 1 then RootKindUnsupported else InvalidAccountData
            else if |auth| < 37 then e == AuthDataTooShort
            else if auth[..32] != a.rpIdHash then e == RpIdHashMismatch
            else if !PolicyRules.Bit(auth[32], 0) || !PolicyRules.Bit(auth[32], 2) then e == UserVerificationRequired
            else match ParseStrict(args.clientDataJson)
                 case Err(x) => e == x
                 case Ok(cd) => ClientDataFault(env, a, cx, args, key, action, cd, e)
  {
    hide ParseStrict, Bind, CheckFreshness, CheckChallenge, ClientDataFault, ActionHash, PolicyRules.Bit;
    if |args.authenticatorData| >= 37 { LowBits(args.authenticatorData[32]); }
    if CheckRootKind(a).Ok? && CheckAuthData(args.authenticatorData, a.rpIdHash).Pass? && ParseStrict(args.clientDataJson).Ok? {
      ClientDataRefusal(env, a, cx, args, key, action);
    }
  }

  lemma BindFaults(s: Sysvar, ix: Byte, key: Bytes, message: Bytes)
    ensures Bind(s, ix, key, message).Fail? ==>
              Bind(s, ix, key, message).error in {PrecompileNotFound, BadInstructionLayout, PrecompileBindingMismatch}
  {
    hide U16At, SliceAt;
  }

  lemma TypeIsText()
    ensures WEBAUTHN_GET == Ascii("webauthn.get")
  {
  }

  lemma VerifiedNonce(env: Env, a: Account, cx: Context, root: RootArgs, key: Pubkey, action: Action)
    requires VerifyRoot(env, a, cx, root, key, ActionHash(env, action)).Ok?
    ensures VerifyRoot(env, a, cx, root, key, ActionHash(env, action)).value == a.(rootNonce := a.rootNonce + 1)
    ensures a.rootNonce + 1 < U64_LIMIT
  {
    hide CheckRootKind, CheckAuthData, CheckClientData, CheckFreshness, CheckChallenge, Bind, ActionHash, SignedMessage;
  }

  /** The hash maps these two strings to different values if they differ. */
  ghost predicate NoCollision(hash: Bytes -> Hash, x: Bytes, y: Bytes) { hash(x) == hash(y) ==> x == y }

  /** A challenge stands for one transcript. */
  lemma ChallengeInjective(env: Env, t: Transcript, u: Transcript)
    requires NoCollision(env.keccak, TranscriptPreimage(t), TranscriptPreimage(u))
    requires Challenge(env, t) == Challenge(env, u)
    ensures t == u
  {
    hide TranscriptPreimage;
    Base64Url.EncodeInjective(env.keccak(TranscriptPreimage(t)), env.keccak(TranscriptPreimage(u)));
    TranscriptInjective(t, u);
  }

  /**
    If the challenge the passkey signed was made for a transcript `t` over an action `signed`, then a
    success executes that very action, for that account, program, nonce and expiry.
  */
  lemma SignedIsExecuted(env: Env, a: Account, cx: Context, args: RootArgs, key: Pubkey, executed: Action,
                         t: Transcript, signed: Action)
    requires VerifyRoot(env, a, cx, args, key, ActionHash(env, executed)).Ok? && ParseStrict(args.clientDataJson).Ok?
    requires ParseStrict(args.clientDataJson).value.challenge == Base64Url.Encode(env.keccak(TranscriptPreimage(t)))
    requires t.actionHash == env.keccak(ActionPreimage(signed))
    requires NoCollision(env.keccak, TranscriptPreimage(t),
                         TranscriptPreimage(CurrentTranscript(env, a, key, args.expiryTs, executed)))
    requires NoCollision(env.keccak, ActionPreimage(signed), ActionPreimage(executed))
    ensures signed == executed
    ensures t.account == key && t.programId == env.programId && t.clusterTag == a.clusterTag
    ensures t.rootNonce == a.rootNonce && t.expiryTs == args.expiryTs
    ensures t.generation == a.generation && t.policyVersion == a.policy.version
  {
    hide VerifyRoot, ParseStrict, Base64Url.Encode, TranscriptPreimage, ActionPreimage, RuntimeVerified, AuthenticatorValid,
      TranscriptFits;
    VerifiedMeans(env, a, cx, args, key, executed);
    CurrentFits(env, a, key, args.expiryTs, executed);
    ChallengeInjective(env, t, CurrentTranscript(env, a, key, args.expiryTs, executed));
    ActionInjective(signed, executed);
  }

  /**
    Presented again right after it was consumed, an assertion that is still fresh is refused, and refused
    as a replay.
  */
  lemma ReplayIsNamed(env: Env, a: Account, cx: Context, args: RootArgs, key: Pubkey, action: Action, cx': Context)
    requires VerifyRoot(env, a, cx, args, key, ActionHash(env, action)).Ok?
    requires cx'.now <= args.expiryTs <= cx'.now + MAX_ROOT_EXPIRY_SECS < I64_LIMIT
    requires var t := CurrentTranscript(env, a, key, args.expiryTs, action);
             NoCollision(env.keccak, TranscriptPreimage(t), TranscriptPreimage(t.(rootNonce := t.rootNonce + 1)))
    ensures VerifyRoot(env, a.(rootNonce := a.rootNonce + 1), cx', args, key, ActionHash(env, action)) == Err(NonceMismatch)
  {
    hide ParseStrict, Bind, RuntimeVerified, Challenge, TranscriptPreimage, AuthenticatorValid, CheckAuthData, ActionHash;
    var t := CurrentTranscript(env, a, key, args.expiryTs, action);
    var next := t.(rootNonce := t.rootNonce + 1);
    VerifiedMeans(env, a, cx, args, key, action);
    AuthDataDecides(a, args.authenticatorData);
    if Challenge(env, t) == Challenge(env, next) { ChallengeInjective(env, t, next); }
  }

  /** The ceremony does not look at the frozen state, the buckets or the spendable policy. */
  lemma VerifyIgnoresFreeze(env: Env, a: Account, b: Account, cx: Context, args: RootArgs, key: Pubkey, h: Hash)
    requires b == a.(frozenKind := b.frozenKind, frozenGuardianIdx := b.frozenGuardianIdx,
                     frozenUntil := b.frozenUntil, frozenAt := b.frozenAt)
    ensures VerifyRoot(env, a, cx, args, key, h).Ok? <==> VerifyRoot(env, b, cx, args, key, h).Ok?
  {
    hide ParseStrict, Bind, Challenge;
  }
}
