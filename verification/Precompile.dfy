/**
  Binding an assertion to the secp256r1 precompile. `Claims` is what the runtime verified for an
  instruction (SIMD-0075), read independently of the binding check: any number of entries, each
  naming its key, signature and message in this or another instruction. `BindProves` connects the two.
*/
module Precompile {
  import opened Base
  import opened Wire

  /** Secp256r1SigVerify1111111111111111111111111 */
  const SECP256R1_ID: Pubkey :=
    [0x06, 0x92, 0x0D, 0xEC, 0x2F, 0xEA, 0x71, 0xB5, 0xB7, 0x23, 0x81, 0x4D, 0x74, 0x2D, 0xA9, 0x03,
     0x1C, 0x83, 0xE7, 0x5F, 0xDB, 0x79, 0x5D, 0x56, 0x8E, 0x75, 0x47, 0x80, 0x20, 0x00, 0x00, 0x00]

  const SAME_INSTRUCTION: int := 0xFFFF
  const ENTRY_LEN: nat := 14
  const PUBKEY_LEN: nat := 33
  const SIG_LEN: nat := 64

  datatype Instruction = Instruction(programId: Pubkey, data: Bytes)

  /** The transaction's instructions and the index of the executing one, as the sysvar shows them. */
  datatype Sysvar = Sysvar(ixs: seq<Instruction>, current: U16)

  function SliceAt(d: Bytes, off: nat, len: nat): Option<Bytes> {
    if off + len <= |d| then Some(d[off..off + len]) else None
  }

  function U16At(d: Bytes, off: nat): U16
    requires off + 2 <= |d|
  {
    d[off] as int + 256 * d[off + 1] as int
  }

  // ---------------------------------------------------------------- what the runtime verified

  /** One verified signature. */
  datatype Claim = Claim(key: Bytes, signature: Bytes, message: Bytes)

  /** The bytes an entry names: in its own instruction, or in the one with the given index. */
  function Named(tx: seq<Instruction>, own: Bytes, ix: nat, off: nat, len: nat): Option<Bytes> {
    if ix == SAME_INSTRUCTION then SliceAt(own, off, len)
    else if ix < |tx| then SliceAt(tx[ix].data, off, len)
    else None
  }

  /** The claim of the entry whose seven 16-bit fields start at `at`. */
  function ClaimAt(tx: seq<Instruction>, d: Bytes, at: nat): Option<Claim>
    requires at + ENTRY_LEN <= |d|
  {
    var signature :- Named(tx, d, U16At(d, at + 2), U16At(d, at), SIG_LEN);
    var key :- Named(tx, d, U16At(d, at + 6), U16At(d, at + 4), PUBKEY_LEN);
    var message :- Named(tx, d, U16At(d, at + 12), U16At(d, at + 8), U16At(d, at + 10));
    Some(Claim(key, signature, message))
  }

  function ClaimsFrom(tx: seq<Instruction>, d: Bytes, at: nat, n: nat): Option<seq<Claim>>
    requires at + n * ENTRY_LEN <= |d|
    decreases n
  {
    if n == 0 then Some([])
    else
      var claim :- ClaimAt(tx, d, at);
      var rest :- ClaimsFrom(tx, d, at + ENTRY_LEN, n - 1);
      Some([claim] + rest)
  }

  /** Every (key, signature, message) the runtime verified for instruction `ix`; none if it is malformed. */
  function Claims(tx: seq<Instruction>, ix: nat): Option<seq<Claim>>
    requires ix < |tx|
  {
    var d := tx[ix].data;
    if tx[ix].programId != SECP256R1_ID || |d| < 2 || |d| < 2 + d[0] * ENTRY_LEN then None
    else ClaimsFrom(tx, d, 2, d[0])
  }

  // ---------------------------------------------------------------- the binding check

  function Bind(s: Sysvar, ix: Byte, key: Bytes, message: Bytes): Outcome {
    if ix >= s.current then Fail(PrecompileNotFound)
    else if ix >= |s.ixs| || s.ixs[ix].programId != SECP256R1_ID then Fail(PrecompileNotFound)
    else BindData(s.ixs[ix].data, key, message)
  }

  function BindData(d: Bytes, key: Bytes, message: Bytes): Outcome {
    if |d| < 2 + ENTRY_LEN || d[0] != 1 then Fail(BadInstructionLayout)
    else if U16At(d, 4) != SAME_INSTRUCTION || U16At(d, 8) != SAME_INSTRUCTION || U16At(d, 14) != SAME_INSTRUCTION
    then Fail(PrecompileBindingMismatch)
    else
      match SliceAt(d, U16At(d, 6), PUBKEY_LEN)
      case None => Fail(BadInstructionLayout)
      case Some(k) =>
        if k != key || U16At(d, 12) != |message| then Fail(PrecompileBindingMismatch)
        else
          match SliceAt(d, U16At(d, 10), U16At(d, 12))
          case None => Fail(BadInstructionLayout)
          case Some(m) =>
            if m != message then Fail(PrecompileBindingMismatch)
            else if SliceAt(d, U16At(d, 2), SIG_LEN).None? then Fail(BadInstructionLayout)
            else Pass
  }

  /**
    The check passes exactly if the runtime, for an earlier instruction of this transaction, verified
    one signature and nothing else, over exactly this key and message, all inside that instruction.
  */
  lemma BindProves(s: Sysvar, ix: Byte, key: Bytes, message: Bytes)
    ensures Bind(s, ix, key, message).Pass? <==>
              && ix < s.current && ix < |s.ixs|
              && (exists signature :: Claims(s.ixs, ix) == Some([Claim(key, signature, message)]))
              && var d := s.ixs[ix].data;
                 |d| >= 16 && U16At(d, 4) == U16At(d, 8) == U16At(d, 14) == SAME_INSTRUCTION
  {
    hide ClaimAt, BindData, U16At;
    if ix < |s.ixs| && s.ixs[ix].programId == SECP256R1_ID {
      var d := s.ixs[ix].data;
      if |d| >= 16 && d[0] == 1 {
        OneClaim(s.ixs, d);
        BindDataProves(s.ixs, d, key, message);
      } else if |d| >= 2 && d[0] != 1 && |d| >= 2 + d[0] * ENTRY_LEN {
        ClaimCount(s.ixs, d, 2, d[0]);
        BindDataNeedsOne(d, key, message);
      } else {
        BindDataNeedsOne(d, key, message);
      }
    }
  }

  lemma BindDataNeedsOne(d: Bytes, key: Bytes, message: Bytes)
    ensures |d| < 16 || d[0] != 1 ==> BindData(d, key, message).Fail?
  {
  }

  lemma OneClaim(tx: seq<Instruction>, d: Bytes)
    requires |d| >= 16
    ensures ClaimsFrom(tx, d, 2, 1) == if ClaimAt(tx, d, 2).None? then None else Some([ClaimAt(tx, d, 2).value])
    ensures forall c, c': Claim :: [c] == [c'] <==> c == c'
  {
    hide ClaimAt;
    assert ClaimsFrom(tx, d, 16, 0) == Some([]);
    if ClaimAt(tx, d, 2).Some? { assert [ClaimAt(tx, d, 2).value] + [] == [ClaimAt(tx, d, 2).value]; }
    forall c, c': Claim | [c] == [c'] ensures c == c' { assert [c][0] == [c'][0]; }
  }

  lemma BindDataProves(tx: seq<Instruction>, d: Bytes, key: Bytes, message: Bytes)
    requires |d| >= 16 && d[0] == 1
    ensures BindData(d, key, message).Pass? <==>
              && (exists signature :: ClaimAt(tx, d, 2) == Some(Claim(key, signature, message)))
              && U16At(d, 4) == U16At(d, 8) == U16At(d, 14) == SAME_INSTRUCTION
  {
    hide U16At;
    if BindData(d, key, message).Pass? {
      assert ClaimAt(tx, d, 2) == Some(Claim(key, SliceAt(d, U16At(d, 2), SIG_LEN).value, message));
    }
  }

  lemma {:induction false} ClaimCount(tx: seq<Instruction>, d: Bytes, at: nat, n: nat)
    requires at + n * ENTRY_LEN <= |d|
    ensures ClaimsFrom(tx, d, at, n).Some? ==> |ClaimsFrom(tx, d, at, n).value| == n
    decreases n
  {
    hide ClaimAt;
    if n > 0 { ClaimCount(tx, d, at + ENTRY_LEN, n - 1); }
  }

  // ---------------------------------------------------------------- the builder

  function Entry(n: Byte, message: Bytes, ixField: U16): (s: Bytes)
    ensures |s| == ENTRY_LEN
  {
    var pk := 2 + ENTRY_LEN * n;
    Le16(pk + PUBKEY_LEN) + Le16(ixField) + Le16(pk) + Le16(ixField)
    + Le16(pk + PUBKEY_LEN + SIG_LEN) + Le16(|message| % 0x1_0000) + Le16(ixField)
  }

  function Repeat(s: Bytes, n: nat): Bytes { if n == 0 then [] else Repeat(s, n - 1) + s }

  function InstructionData(key: Bytes, signature: Bytes, message: Bytes, n: Byte, ixField: U16): Bytes {
    [n, 0] + Repeat(Entry(n, message, ixField), n) + key + signature + message
  }

  /** `precompile_ix_custom`: a header, `n` equal entries, then key, signature and message. */
  method PrecompileIxCustom(key: Bytes, signature: Bytes, message: Bytes, n: Byte, ixField: U16) returns (d: Bytes)
    requires |key| == PUBKEY_LEN && |signature| == SIG_LEN
    ensures d == InstructionData(key, signature, message, n, ixField)
  {
    hide Le;
    d := [n, 0];
    var pk := 2 + ENTRY_LEN * n;
    for k := 0 to n
      invariant d == [n, 0] + Repeat(Entry(n, message, ixField), k)
    {
      ghost var before := d;
      d := d + Le16(pk + PUBKEY_LEN) + Le16(ixField) + Le16(pk) + Le16(ixField);
      d := d + Le16(pk + PUBKEY_LEN + SIG_LEN) + Le16(|message| % 0x1_0000) + Le16(ixField);
      assert d == before + Entry(n, message, ixField);
    }
    d := d + key + signature + message;
  }

  lemma Le16At(d: Bytes, off: nat, v: U16)
    requires At(d, off, Le16(v))
    ensures off + 2 <= |d| && U16At(d, off) == v
  {
    var s := Le16(v);
    assert Le(v / 256, 1) == [v / 256 % 256] + Le(v / 256 / 256, 0);
    assert d[off + 0] == s[0] && d[off + 1] == s[1];
  }

  /** An honestly built single-signature instruction before the executing one always binds. */
  lemma HonestBinds(s: Sysvar, ix: Byte, key: Bytes, signature: Bytes, message: Bytes)
    requires ix < s.current && ix < |s.ixs| && |key| == PUBKEY_LEN && |signature| == SIG_LEN && |message| < 0x1_0000
    requires s.ixs[ix] == Instruction(SECP256R1_ID, InstructionData(key, signature, message, 1, SAME_INSTRUCTION))
    ensures Bind(s, ix, key, message) == Pass
  {
    hide At, Le16, U16At;
    var d := s.ixs[ix].data;
    HonestFields(key, signature, message);
    AtSlice(d, 16, key);
    AtSlice(d, 49, signature);
    AtSlice(d, 113, message);
  }

  lemma HonestFields(key: Bytes, signature: Bytes, message: Bytes)
    requires |key| == PUBKEY_LEN && |signature| == SIG_LEN && |message| < 0x1_0000
    ensures var d := InstructionData(key, signature, message, 1, SAME_INSTRUCTION);
            && |d| >= 16 && d[0] == 1
            && U16At(d, 2) == 49 && U16At(d, 4) == SAME_INSTRUCTION && U16At(d, 6) == 16
            && U16At(d, 8) == SAME_INSTRUCTION && U16At(d, 10) == 113 && U16At(d, 12) == |message|
            && U16At(d, 14) == SAME_INSTRUCTION
            && At(d, 16, key) && At(d, 49, signature) && At(d, 113, message)
  {
    hide At, Le16, U16At, Entry;
    var d := InstructionData(key, signature, message, 1, SAME_INSTRUCTION);
    var entry := Entry(1, message, SAME_INSTRUCTION);
    assert Repeat(entry, 0) + entry == entry;
    assert d == [1, 0] + (entry + (key + (signature + message)));
    AtSlice(d, 0, d);
    AtConcat3(d, 0, [1, 0], entry, key + (signature + message));
    AtConcat3(d, 16, key, signature, message);
    HonestEntry(d, message);
  }

  lemma HonestEntry(d: Bytes, message: Bytes)
    requires |message| < 0x1_0000 && At(d, 2, Entry(1, message, SAME_INSTRUCTION))
    ensures |d| >= 16
    ensures U16At(d, 2) == 49 && U16At(d, 4) == SAME_INSTRUCTION && U16At(d, 6) == 16
    ensures U16At(d, 8) == SAME_INSTRUCTION && U16At(d, 10) == 113 && U16At(d, 12) == |message|
    ensures U16At(d, 14) == SAME_INSTRUCTION
  {
    hide At, Le, U16At;
    var same, len := Le16(SAME_INSTRUCTION), Le16(|message|);
    assert Entry(1, message, SAME_INSTRUCTION)
        == Le16(49) + (same + (Le16(16) + (same + (Le16(113) + (len + same)))));
    AtConcat3(d, 2, Le16(49), same, Le16(16) + (same + (Le16(113) + (len + same))));
    AtConcat3(d, 6, Le16(16), same, Le16(113) + (len + same));
    AtConcat3(d, 10, Le16(113), len, same);
    Le16At(d, 2, 49);
    Le16At(d, 4, SAME_INSTRUCTION);
    Le16At(d, 6, 16);
    Le16At(d, 8, SAME_INSTRUCTION);
    Le16At(d, 10, 113);
    Le16At(d, 12, |message|);
    Le16At(d, 14, SAME_INSTRUCTION);
  }

  // ---------------------------------------------------------------- what the builder's instructions claim

  function Copies(c: Claim, n: nat): seq<Claim> { if n == 0 then [] else [c] + Copies(c, n - 1) }

  lemma EntryClaims(tx: seq<Instruction>, d: Bytes, at: nat, n: Byte, key: Bytes, signature: Bytes, message: Bytes)
    requires |key| == PUBKEY_LEN && |signature| == SIG_LEN && |message| < 0x1_0000
    requires At(d, at, Entry(n, message, SAME_INSTRUCTION)) && At(d, 2 + ENTRY_LEN * n, key + (signature + message))
    ensures at + ENTRY_LEN <= |d| && ClaimAt(tx, d, at) == Some(Claim(key, signature, message))
  {
    hide At, Le, U16At;
    var same, len, pk := Le16(SAME_INSTRUCTION), Le16(|message|), 2 + ENTRY_LEN * n;
    assert Entry(n, message, SAME_INSTRUCTION)
        == Le16(pk + PUBKEY_LEN) + (same + (Le16(pk) + (same + (Le16(pk + PUBKEY_LEN + SIG_LEN) + (len + same)))));
    AtConcat3(d, at, Le16(pk + PUBKEY_LEN), same, Le16(pk) + (same + (Le16(pk + PUBKEY_LEN + SIG_LEN) + (len + same))));
    AtConcat3(d, at + 4, Le16(pk), same, Le16(pk + PUBKEY_LEN + SIG_LEN) + (len + same));
    AtConcat3(d, at + 8, Le16(pk + PUBKEY_LEN + SIG_LEN), len, same);
    Le16At(d, at, pk + PUBKEY_LEN);
    Le16At(d, at + 2, SAME_INSTRUCTION);
    Le16At(d, at + 4, pk);
    Le16At(d, at + 6, SAME_INSTRUCTION);
    Le16At(d, at + 8, pk + PUBKEY_LEN + SIG_LEN);
    Le16At(d, at + 10, |message|);
    Le16At(d, at + 12, SAME_INSTRUCTION);
    AtConcat3(d, pk, key, signature, message);
    AtSlice(d, pk, key);
    AtSlice(d, pk + PUBKEY_LEN, signature);
    AtSlice(d, pk + PUBKEY_LEN + SIG_LEN, message);
  }

  lemma {:induction false} RepeatHead(s: Bytes, n: nat)
    ensures |Repeat(s, n)| == |s| * n
    ensures n > 0 ==> Repeat(s, n) == s + Repeat(s, n - 1)
  {
    if n > 0 {
      RepeatHead(s, n - 1);
      if n == 1 { assert [] + s == s + []; }
    }
  }

  lemma {:induction false} EntriesClaim(tx: seq<Instruction>, d: Bytes, at: nat, k: nat, n: Byte, key: Bytes, signature: Bytes,
                                        message: Bytes)
    requires |key| == PUBKEY_LEN && |signature| == SIG_LEN && |message| < 0x1_0000
    requires At(d, at, Repeat(Entry(n, message, SAME_INSTRUCTION), k))
    requires At(d, 2 + ENTRY_LEN * n, key + (signature + message))
    ensures at + k * ENTRY_LEN <= |d| && ClaimsFrom(tx, d, at, k) == Some(Copies(Claim(key, signature, message), k))
    decreases k
  {
    hide At, Entry, ClaimAt, Repeat;
    var entry := Entry(n, message, SAME_INSTRUCTION);
    RepeatHead(entry, k);
    AtSlice(d, at, Repeat(entry, k));
    if k > 0 {
      AtConcat(d, at, entry, Repeat(entry, k - 1));
      EntryClaims(tx, d, at, n, key, signature, message);
      EntriesClaim(tx, d, at + ENTRY_LEN, k - 1, n, key, signature, message);
    }
  }

  /** An instruction built with `n` entries claims the same signature `n` times over, and nothing else. */
  lemma BuilderClaims(tx: seq<Instruction>, ix: nat, key: Bytes, signature: Bytes, message: Bytes, n: Byte)
    requires ix < |tx| && |key| == PUBKEY_LEN && |signature| == SIG_LEN && |message| < 0x1_0000
    requires tx[ix] == Instruction(SECP256R1_ID, InstructionData(key, signature, message, n, SAME_INSTRUCTION))
    ensures Claims(tx, ix) == Some(Copies(Claim(key, signature, message), n))
  {
    hide At, Entry, ClaimsFrom, Repeat;
    var d, entries := tx[ix].data, Repeat(Entry(n, message, SAME_INSTRUCTION), n);
    RepeatHead(Entry(n, message, SAME_INSTRUCTION), n);
    assert d == [n, 0] + (entries + (key + (signature + message)));
    AtSlice(d, 0, d);
    AtConcat3(d, 0, [n, 0], entries, key + (signature + message));
    EntriesClaim(tx, d, 2, n, n, key, signature, message);
  }
}
