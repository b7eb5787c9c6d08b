/** Machine integers, byte strings, error codes and constants shared by every part of the model. */
module Base {

  type Byte = x: int | 0 <= x < 0x100
  type Bytes = seq<Byte>
  type U16 = x: int | 0 <= x < 0x1_0000
  type U32 = x: int | 0 <= x < 0x1_0000_0000
  type U64 = x: int | 0 <= x < 0x1_0000_0000_0000_0000
  type I64 = x: int | -0x8000_0000_0000_0000 <= x < 0x8000_0000_0000_0000

  const U64_LIMIT: int := 0x1_0000_0000_0000_0000
  const I64_LIMIT: int := 0x8000_0000_0000_0000

  /** 32-byte strings: addresses and digests. */
  type Pubkey = k: Bytes | |k| == 32 witness Zeros(32)
  type Hash = Pubkey

  /** `Pubkey::default()`: the unused-slot sentinel. */
  const DEFAULT_KEY: Pubkey := Zeros(32)

  function Zeros(n: nat): (s: Bytes)
    ensures |s| == n && forall k :: 0 <= k < n ==> s[k] == 0
  {
    if n == 0 then [] else Zeros(n - 1) + [0]
  }

  /** The bytes of a text in ASCII. */
  function Ascii(s: string): (b: Bytes)
    requires forall k :: 0 <= k < |s| ==> s[k] < 128 as char
  {
    seq(|s|, k requires 0 <= k < |s| => s[k] as int)
  }

  datatype Option<+T> = None | Some(value: T) {
    predicate IsFailure() { None? }
    function PropagateFailure<U>(): Option<U> requires None? { None }
    function Extract(): T requires Some? { value }
  }

  /** The outcome of reading something at an offset: nothing, or a value and the offset after it. */
  datatype Parsed<+T> = Stuck | Got(value: T, end: nat)

  /** The program's error codes that the modelled paths raise; `Framework` is every refusal by the runtime around it. */
  datatype Error =
    | Overflow | Frozen | Unauthorized | InvalidRootAssertion | NonceMismatch | Expired
    | CapExceeded | SessionExpired | OpNotAllowed | InvalidAccountData | BadInstructionLayout
    | ClientDataTooLong | ClientDataMalformed | ClientDataDuplicateKey | ClientDataMissingKey
    | ClientDataTypeMismatch | CrossOriginNotAllowed | OriginMismatch | ChallengeMismatch
    | AuthDataTooShort | RpIdHashMismatch | UserVerificationRequired | PrecompileNotFound
    | PrecompileBindingMismatch | RootKindUnsupported | InvalidOrigin | ZeroClusterTag
    | InvalidPolicy | ProgramAllowlistUnsupported | AlreadyFrozen | TimelockNotElapsed | RentFloor
    | VaultDestination | SessionDayCapsUnsupported | InvalidRootKey | SessionPriorStateMismatch
    | Framework

  datatype Result<+T> = Ok(value: T) | Err(error: Error) {
    predicate IsFailure() { Err? }
    function PropagateFailure<U>(): Result<U> requires Err? { Err(error) }
    function Extract(): T requires Ok? { value }
  }

  /** The outcome of a `require!`. */
  datatype Outcome = Pass | Fail(error: Error) {
    predicate IsFailure() { Fail? }
    function PropagateFailure<U>(): Result<U> requires Fail? { Err(error) }
  }

  function Require(condition: bool, error: Error): Outcome {
    if condition then Pass else Fail(error)
  }

  /** `s` occurs in `b` at offset `i`. */
  ghost predicate At(b: Bytes, i: nat, s: Bytes) {
    i + |s| <= |b| && forall k {:trigger s[k]} :: 0 <= k < |s| ==> b[i + k] == s[k]
  }

  lemma AtSlice(b: Bytes, i: nat, s: Bytes)
    ensures At(b, i, s) <==> i + |s| <= |b| && b[i..i + |s|] == s
  {
    if At(b, i, s) {
      forall k | 0 <= k < |s| ensures b[i..i + |s|][k] == s[k] { assert b[i + k] == s[k]; }
    }
    if i + |s| <= |b| && b[i..i + |s|] == s {
      forall k | 0 <= k < |s| ensures b[i + k] == s[k] { assert b[i..i + |s|][k] == b[i + k]; }
    }
  }

  lemma AtConcat(b: Bytes, i: nat, s: Bytes, t: Bytes)
    ensures At(b, i, s + t) <==> At(b, i, s) && At(b, i + |s|, t)
  {
    if At(b, i, s + t) {
      forall k | 0 <= k < |s| ensures b[i + k] == s[k] { assert (s + t)[k] == s[k]; }
      forall k | 0 <= k < |t| ensures b[i + |s| + k] == t[k] { assert (s + t)[|s| + k] == t[k]; }
    }
  }

  lemma AtOne(b: Bytes, i: nat, c: Byte)
    ensures At(b, i, [c]) <==> i < |b| && b[i] == c
  {
    assert [c][0] == c;
  }

  lemma AtConcat3(b: Bytes, i: nat, s: Bytes, t: Bytes, u: Bytes)
    ensures At(b, i, s + (t + u)) <==> At(b, i, s) && At(b, i + |s|, t) && At(b, i + |s| + |t|, u)
  {
    AtConcat(b, i, s, t + u);
    AtConcat(b, i + |s|, t, u);
  }

  lemma AtEmptyText(b: Bytes, i: nat)
    ensures At(b, i, []) <==> i <= |b|
  {
  }

  lemma AtHead(b: Bytes, i: nat, s: Bytes)
    requires s != [] && At(b, i, s)
    ensures i < |b| && b[i] == s[0] && At(b, i + 1, s[1..])
  {
    assert b[i + 0] == s[0];
    assert s == [s[0]] + s[1..];
    AtConcat(b, i, [s[0]], s[1..]);
  }
}
