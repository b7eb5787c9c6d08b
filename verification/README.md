# Warden wallet: a verified model

Warden is an on-chain smart wallet. An account is owned by a passkey (the *root*), which signs one
challenge per action in a browser; day-to-day spending is delegated to *sessions*, plain keys with
per-transaction and lifetime caps; and every outflow, by whomever, is charged to one account-wide limiter
per mint. This project models that program and the two pieces of TypeScript around it in Dafny, and proves
what the wallet promises its owner:

* **The client data is read as JSON defines it.** The scanner that the root ceremony trusts is an iterative
  machine with a 16-slot stack. It computes, for every byte string and every offset, what a recursive reader
  of RFC 8259 (sections 2 to 7) computes, and that reader accepts exactly the texts of the grammar. The strict
  top-level parse accepts exactly the documents it should and surfaces only the decoded depth-0 values.
* **The spend limiter is its ledger.** The 30-slot ring is the last 30 days of an unbounded ledger; a debit is
  accepted exactly if the mathematical day and 30-day totals leave room; so all sessions and the root together
  stay within the account's caps, however many sessions there are, while days do not go back. For a clock
  that goes back, which the program does not rule out, the exact condition on the times is proved for each of
  these three statements.
* **One ceremony, one action.** Every accepted root instruction consumed exactly one nonce, its challenge was
  made for that account, program, nonce and action, no challenge is ever used twice, and the runtime verified
  one signature by the stored root key over exactly the presented bytes. What the signed bytes say, read by their
  literal layout, is what took effect. Honest ceremonies always pass, and every instruction succeeds exactly under
  conditions a caller can read.
* **What is created stays.** In every run the policy, root, origin and cluster of an account are the ones its one
  creation asked for.
* **Freezing works.** After a freeze nothing leaves the account and nothing is granted until an unfreeze, which
  comes at least the timelock (an hour or more) later; rotation and revocation stay possible throughout.
* **The books balance.** Session lifetime totals, account totals and lamport balances are exactly what the log
  of accepted instructions says, over every run.
* **Wrapping is invertible.** The `execute` payload decodes back to the very instructions that were packed.

## How the model is built

Pure decisions are functions; code that updates state in place is a method or a class with loops and
invariants, proved equal to the function that specifies it; and properties are lemmas about those functions.

| files | content |
|---|---|
| `Base`, `Utf8` | integers, byte strings, error codes; UTF-8 (section 4 of RFC 3629) |
| `Json`, `JsonStrings` | the RFC 8259 grammar as syntax trees, a recursive reader proved sound and complete for it, string decoding |
| `ClientDataJson`, `Scanner` | the strict document and its meaning; the scanner class with cursor, stack and loops |
| `Buckets`, `Clocks`, `ClockLimits` | the limiter as a function and as a class, the ledger it refines, runs of debits; which clocks its caps survive |
| `Base64Url`, `Wire`, `Readings` | base64url (section 5 of RFC 4648), the hashed and signed encodings, both languages' encoders; what the bytes say, read at literal offsets |
| `Precompile`, `RootVerify`, `Honest` | the secp256r1 binding (SIMD-0075), the root ceremony, and the canonical assertion it must accept |
| `State`, `PolicyRules`, `Lifecycle`, `Sessions`, `Transfers` | accounts, sessions, policies and what each instruction computes, checks in the program's order |
| `World`, `Steps` | all accounts, sessions and balances; every instruction as an atomic step that appends one event to a log |
| `Runs`, `RunCaps`, `RunLedger`, `RunSafety`, `RunSetup`, `RunDecides` | theorems about every run |
| `SessionKey`, `SmartAccount`, `Handlers` | the accounts as mutable objects and the instruction handlers that update them |
| `Wrap` | packing, decoding and the chunk-size search of the transaction-wrapping spike |

`World` keeps several accounts at once. A failed instruction changes nothing, because the runtime discards all
writes; that rollback is modelled at the step and nowhere else (`SessionKey.MergeCanFailHalfway` shows why it is
needed, and `Sessions.UntouchedExactly` exactly when it is not). Hash functions, program-address derivation, the
program id and the rent floor are parameters of the model (`State.Env`). No hash is assumed injective: a theorem
that needs it names the two strings that must not collide (`RootVerify.NoCollision`). What the runtime vouches
for is `Precompile.Claims`: the list of (key, signature, message) triples it verified for an instruction.

## Where code and prose differ

The model follows the code.

* The repository's README describes one mint at creation and a proof of possession; the code has
  `MAX_MINTS_AT_CREATE = 4` and no proof of possession (`programs/warden/src/constants.rs:20`,
  `programs/warden/src/instructions/create_account.rs:85-130`).
* The comment at `programs/warden/src/root_verify/transcript.rs:42-44` says that a revocation hashes the bare
  session key; the code hashes `RevokeBody`, with the rent destination.
* The field list at `packages/core/src/webauthn/transcript.ts:51-54` omits `prior_authority_hash`, which is part
  of the signed grant.
* The comments of `programs/warden/src/buckets.rs:1-33` promise both caps without a word on the clock. A clock that
  goes back can exceed either: `ClockLimits.BackwardClockExceedsDay` and `ClockLimits.BackwardClockExceedsWindow` are such
  runs. `ClockLimits.DaysHoldExactly` and `ClockLimits.WindowsHoldExactly` say for which times each cap holds, and
  `ClockLimits.DecidesExactly` for which times nothing is refused or accepted but by the ledger. Going back within a
  day breaks none of them.
* The packer merges the flags of repeated keys, but naming a key as a program resets them
  (`spikes/03-txbudget/ts/src/wrap.ts:146`): `Wrap.ProgramUseDropsFlags` is an instance, `Wrap.OuterIsASet`
  says exactly when a flag survives.

## Model

| member | source | states |
|---|---|---|
| `Json.ReaderIsGrammar` | `programs/warden/src/root_verify/client_data.rs:242-318` | the recursive reader accepts at an offset, ending at `e`, exactly if white space and the text of some well-formed value no deeper than the budget stand there and a maximal number ends there: accept, reject and end are those of the RFC 8259 grammar |
| `Json.CompleteGrammar` | `programs/warden/src/root_verify/client_data.rs:242-318` | every text of the grammar is read back as the tree it was printed from |
| `Json.SoundValue` | `programs/warden/src/root_verify/client_data.rs:259-318` | what is accepted is white space followed by the text of the returned syntax tree |
| `Json.CompleteNumber` | `programs/warden/src/root_verify/client_data.rs:200-240` | every number of the grammar, with fraction and exponent, is read to its end |
| `Json.SoundNumber` | `programs/warden/src/root_verify/client_data.rs:200-240` | only texts of the number grammar are accepted as numbers |
| `JsonStrings.SpellingsDecode` | `programs/warden/src/root_verify/client_data.rs:104-139` | any mix of raw bytes, the eight short escapes and `\uXXXX` escapes, with digits of either case, that spells a BMP text by the tables of RFC 8259 decodes to its UTF-8 encoding |
| `JsonStrings.EscapesDecode` | `programs/warden/src/root_verify/client_data.rs:116-187` | an escape is well formed exactly if it prints a code unit in the literal hexadecimal digits or is one of the eight short ones; it decodes to the UTF-8 encoding of that unit and is refused exactly for surrogate halves |
| `JsonStrings.DecodedIsUtf8` | `programs/warden/src/root_verify/client_data.rs:104-139` | a string inside valid UTF-8 text decodes to valid UTF-8 |
| `JsonStrings.RawsDecode` | `programs/warden/src/root_verify/client_data.rs:104-139` | text without quotes, escapes or control bytes decodes to itself |
| `Utf8.EncodedIsChar` | `programs/warden/src/root_verify/client_data.rs:347-358` | the encoder of a BMP scalar emits one well-formed character and nothing that continues it |
| `Utf8.ValidIsEncoded` | `programs/warden/src/root_verify/client_data.rs:381` | the validity test accepts only encodings of scalar sequences |
| `Utf8.EncodeAllIsValid` | `programs/warden/src/root_verify/client_data.rs:381` | and accepts all of them |
| `ClientDataJson.ParseStrictIsStrict` | `programs/warden/src/root_verify/client_data.rs:370-442` | accepted exactly if at most 512 bytes of valid UTF-8 spelling one object whose decoded keys are pairwise distinct, whose ignored values nest at most 16 deep and whose known members are well-typed; the fields are then those of the depth-0 members |
| `ClientDataJson.AcceptedIsStrict` | `programs/warden/src/root_verify/client_data.rs:370-442` | an accepted document is the text of a strict document that surfaces exactly the returned fields |
| `ClientDataJson.StrictIsAccepted` | `programs/warden/src/root_verify/client_data.rs:370-442` | every strict document is accepted with the fields it surfaces |
| `ClientDataJson.RefusalIsNamed` | `programs/warden/src/root_verify/client_data.rs:370-442` | a text is refused as too long exactly beyond 512 bytes, and for a missing key exactly if it is a strict document that lacks one |
| `ClientDataJson.FieldsAreUtf8` | `programs/warden/src/root_verify/client_data.rs:372-381` | the returned fields are valid UTF-8 |
| `Scanner.Scanner.SkipValue` | `programs/warden/src/root_verify/client_data.rs:259-318` | the stack machine accepts, rejects and ends exactly where the recursive reader with a nesting budget of 16 does, and always terminates with the cursor in range |
| `Scanner.Scanner.CloseOrComma` | `programs/warden/src/root_verify/client_data.rs:296-316` | the inner loop leaves the cursor and stack such that what remains to be read is unchanged |
| `Scanner.Scanner.OpenContainer` | `programs/warden/src/root_verify/client_data.rs:268-287` | opening a container pushes exactly the work of reading its members, or finishes an empty one |
| `Scanner.Scanner.ParseString` | `programs/warden/src/root_verify/client_data.rs:104-139` | returns the decoding of the string the grammar reads, or rejects when there is none; of every quoted spelling of a text it returns the UTF-8 encoding of the text |
| `Scanner.Scanner.ValidateString` | `programs/warden/src/root_verify/client_data.rs:154-171` | accepts exactly the strings of the grammar, surrogate escapes included |
| `Scanner.Scanner.Hex4` | `programs/warden/src/root_verify/client_data.rs:173-187` | four literal hexadecimal digits of either case give the number they print; anything else is rejected |
| `Scanner.Scanner.ValidateNumber` | `programs/warden/src/root_verify/client_data.rs:206-240` | the automaton stops where the recursive number reader stops |
| `Scanner.Scanner.MemberKeyAndColon` | `programs/warden/src/root_verify/client_data.rs:322-329` | reads exactly one key and its colon |
| `Scanner.Scanner.ValidateScalar` | `programs/warden/src/root_verify/client_data.rs:288-293` | dispatches to the one scalar kind the first byte allows |
| `Scanner.Scanner.ParseMember` | `programs/warden/src/root_verify/client_data.rs:417-427` | reads the value of one top-level member by the rule of its decoded key |
| `Scanner.ParseStrict` | `programs/warden/src/root_verify/client_data.rs:370-442` | the imperative parse equals the strict parse for every byte string |
| `Scanner.ParseMembers` | `programs/warden/src/root_verify/client_data.rs:386-429` | the top-level loop equals the recursive one, duplicates and comma placement included |
| `Buckets.MintBuckets.Debit` | `programs/warden/src/buckets.rs:34-81` | a rejected debit leaves the bucket identical; an accepted one leaves exactly the specified state; same errors in the same order |
| `Buckets.MintBuckets.ZeroSlots` | `programs/warden/src/buckets.rs:55-63` | the loop zeroes the slots of the skipped days and no other |
| `Buckets.MintBuckets.SumRing` | `programs/warden/src/buckets.rs:69-72` | the running sum overflows exactly if the mathematical sum does |
| `Buckets.DebitRefines` | `programs/warden/src/buckets.rs:34-81` | on a bucket that mirrors a ledger, a debit is accepted exactly if per-transaction, day and 30-day inequalities hold on the ledger (away from the end of 64-bit time), and the ring mirrors the extended ledger |
| `Buckets.RefusalIsNamed` | `programs/warden/src/buckets.rs:34-81` | on a bucket that mirrors a ledger, a refusal is called Overflow exactly where a sum leaves 64 bits before a cap is exceeded, and CapExceeded otherwise |
| `Buckets.RollRefines` | `programs/warden/src/buckets.rs:45-63` | rolling forward by any gap keeps every slot of the 30-day window equal to its day of the ledger |
| `Buckets.MirrorSum` | `programs/warden/src/buckets.rs:69-73` | the ring sum is the ledger total of the 30 days up to the current one |
| `Buckets.SlotNeverOverflows` | `programs/warden/src/buckets.rs:77` | the last checked addition cannot overflow in any state |
| `Buckets.RunStaysWithin` | `programs/warden/src/buckets.rs:34-81` | over every run with a clock that never goes back, every UTC day and every 30 consecutive UTC days stay within the cap |
| `Buckets.RollingSeconds` | `programs/warden/src/buckets.rs:21-33` | hence any 30 days of seconds total at most per_30d + per_day, and any 86400 seconds at most 2 per_day |
| `Buckets.DebitNeverUnder` | `programs/warden/src/buckets.rs:34-81` | with any clock, an accepted debit leaves no day of the window under-counted and the window within per_30d |
| `Buckets.RunNeverUnder` | `programs/warden/src/buckets.rs:34-81` | the same over whole runs with any clock |
| `ClockLimits.BackwardClockExceedsDay` | `programs/warden/src/buckets.rs:45-50` | a run whose clock goes to the next day and back, in which a calendar day totals twice per_day |
| `ClockLimits.BackwardClockExceedsWindow` | `programs/warden/src/buckets.rs:52-63` | a run whose clock goes 30 days on and one back, in which 30 consecutive UTC days total more than per_30d |
| `ClockLimits.DaysHoldExactly` | `programs/warden/src/buckets.rs:34-81` | for any list of attempt times: every UTC day stays within per_day for all caps and all amounts exactly if no day is left for a later one and then returned to (away from the end of 64-bit time) |
| `ClockLimits.WindowsHoldExactly` | `programs/warden/src/buckets.rs:34-81` | likewise every 30 consecutive UTC days stay within per_30d exactly if no day is left by 30 days or more and then one less than 30 days from it is returned to |
| `Clocks.RunHolds` | `programs/warden/src/buckets.rs:34-81` | over every run of attempts with any clock, each cap holds on the accepted debits unless its own condition on their times fails |
| `ClockLimits.DecidesExactly` | `programs/warden/src/buckets.rs:34-81` | for any list of attempt times: for all caps and all amounts every attempt is accepted exactly if the ledger of what was accepted before leaves room, if and only if no attempt is on an earlier day than one before it (away from the end of 64-bit time) |
| `Buckets.FindCap` | `programs/warden/src/buckets.rs:88-90` | finds a slot that really holds the mint, misses only mints no slot holds, and never finds the unused-slot sentinel |
| `Base64Url.DecodeEncode` | `programs/warden/src/root_verify/transcript.rs:118-143` | the encoder has a left inverse, emits ceil(4n/3) characters and only of the accepted alphabet |
| `Base64Url.SymbolIsNamed` | `programs/warden/src/root_verify/transcript.rs:112-116` | the 64 symbols are the alphabet of RFC 4648, in its order |
| `Base64Url.B64UrlNoPad` | `programs/warden/src/root_verify/transcript.rs:118-143` | the chunked loop computes that encoding |
| `Base64Url.ChallengeB64Url` | `packages/core/src/webauthn/transcript.ts:114-136` | so does the indexed loop |
| `Base64Url.EncodeInjective` | `programs/warden/src/root_verify/transcript.rs:118-143` | equal encodings have equal bytes |
| `Wire.TranscriptInjective` | `programs/warden/src/root_verify/transcript.rs:81-103` | equal transcript preimages have all eight fields equal, negative expiry times included |
| `Readings.TranscriptReads` | `programs/warden/src/root_verify/transcript.rs:81-103` | reading the 170 bytes at literal offsets, little-endian and in two's complement, gives back every field of the transcript |
| `Readings.TranscriptLayout` | `programs/warden/src/root_verify/transcript.rs:5-19` | those permanent offsets and numbers, written out |
| `Wire.ActionInjective` | `programs/warden/src/root_verify/transcript.rs:108-110` | equal op and body strings mean the same op and the same body, across all six ops and both length-prefixed vectors |
| `Readings.ActionReads` | `programs/warden/src/root_verify/transcript.rs:35-110` | reading a signed byte string by its literal operation byte (0 rotate, 1 grant, 2 revoke, 3 freeze, 4 unfreeze, 5 transfer) and the layout of that body gives back the action, both vectors included |
| `Wire.GrantInjective` | `programs/warden/src/instructions/grant_session.rs:99-124` | the borsh encoding of a grant determines every field |
| `Wire.TransferInjective` | `programs/warden/src/instructions/transfer.rs:103-114` | the borsh encoding of a transfer determines every field |
| `Wire.CapLayout` | `programs/warden/src/state/smart_account.rs:343-351` | the permanent offsets of a cap on the wire, little-endian |
| `Wire.TransferLayout` | `programs/warden/src/instructions/transfer.rs:515-532` | the permanent offsets of a signed transfer |
| `Wire.GrantLayout` | `programs/warden/src/instructions/grant_session.rs:99-110` | the permanent offsets of the fixed part of a signed grant, its expiry in two's complement |
| `Wire.GrantEndLayout` | `programs/warden/src/instructions/grant_session.rs:115-124` | its last 50 bytes are allowlist id, label and prior authority hash |
| `Wire.AuthorityInjective` | `programs/warden/src/state/session.rs:104-119` | equal authority preimages have equal identity, caps and lifetime caps in every slot |
| `Readings.AuthorityReads` | `programs/warden/src/state/session.rs:104-119` | reading the hashed bytes at literal offsets gives back account, key and every slot's cap and lifetime cap |
| `Wire.AuthorityBuffer` | `programs/warden/src/state/session.rs:107-118` | the appending loop builds that preimage |
| `Wire.TranscriptBuffer` | `packages/core/src/webauthn/transcript.ts:232-263` | the offset-writing mirror throws exactly on malformed fields and otherwise writes the very bytes of the Rust concatenation |
| `Wire.ActionBuffer` | `packages/core/src/webauthn/transcript.ts:273-279` | the mirror of the action preimage throws exactly on an op that is no byte and otherwise agrees for every action |
| `Precompile.BindProves` | `programs/warden/src/root_verify/precompile.rs:53-109` | passes exactly if an earlier instruction of the transaction made the runtime verify one signature and nothing else, over exactly this key and message, all inside that instruction |
| `Precompile.PrecompileIxCustom` | `programs/warden/tests/common/passkey.rs:136-166` | the builder loop emits the documented layout |
| `Precompile.HonestBinds` | `programs/warden/tests/common/passkey.rs:136-166` | an honestly built single-signature instruction before the executing one always binds |
| `Precompile.BuilderClaims` | `programs/warden/tests/common/passkey.rs:136-166` | an instruction built with `n` entries makes the runtime verify that same signature `n` times and nothing else |
| `RootVerify.VerifiedMeans` | `programs/warden/src/root_verify/mod.rs:69-155` | a ceremony passes exactly if user presence and verification, relying party, type, origin, freshness and the challenge over the account's own fields are right and the runtime verified one signature of the stored root over authenticatorData followed by the SHA-256 of the client data; it then consumes one nonce and nothing else |
| `RootVerify.ReplayIsNamed` | `programs/warden/src/root_verify/mod.rs:121-137` | a consumed assertion that is still fresh is refused as a replay |
| `RootVerify.RefusalIsNamed` | `programs/warden/src/root_verify/mod.rs:69-155` | a refusal names the first condition that fails, in the promised order, each condition stated on its own |
| `RootVerify.AuthDataDecides` | `programs/warden/src/root_verify/auth_data.rs:32-42` | the authenticator data passes exactly with at least 37 bytes, the stored relying party and both flags |
| `RootVerify.SignedIsExecuted` | `programs/warden/src/root_verify/mod.rs:64-77` | whatever transcript and action were signed, a success executes that action for that account, program, nonce, generation, policy version and expiry |
| `RootVerify.ChallengeInjective` | `programs/warden/src/root_verify/mod.rs:112-121` | a challenge stands for one transcript |
| `RootVerify.VerifyIgnoresFreeze` | `programs/warden/src/root_verify/mod.rs:27-31` | the ceremony passes or fails independently of the frozen state |
| `Honest.HonestIsAccepted` | `programs/warden/tests/common/passkey.rs:105-166` | the canonical assertion for the current state, signed over authenticatorData followed by the SHA-256 of the client data, passes every check while it is fresh, for any flags with UP and UV, any account with a stored passkey and plain origin, and a nonce below the u64 maximum |
| `Honest.ClientDataParses` | `programs/warden/tests/common/passkey.rs:112-119` | the printed client data is parsed back to its three strings |
| `Honest.CanonicalText` | `programs/warden/tests/common/passkey.rs:112-119` | the printed client data is the text of a depth-1 strict document |
| `SmartAccount.SmartAccount.VerifyRootAssertion` | `programs/warden/src/root_verify/mod.rs:69-155` | the in-place ceremony refuses without touching the account and otherwise leaves exactly the specified account |
| `SmartAccount.SmartAccount.CheckAssertion` | `programs/warden/src/root_verify/mod.rs:85-99` | authenticator data and client data are checked in order with the specified errors |
| `SmartAccount.SmartAccount.CheckFresh` | `programs/warden/src/root_verify/mod.rs:112-137` | the challenge is compared with the current transcript, then a replay of the previous nonce is told apart |
| `SmartAccount.SmartAccount.EncodedTranscript` | `programs/warden/src/root_verify/mod.rs:157-175` | the challenge text is the encoding of the transcript over the account's own fields |
| `State.TagsRoundTrip` | `programs/warden/src/state/smart_account.rs:91-146` | reading root and freeze tags gives back what was last written, and writing the freeze touches nothing else |
| `SmartAccount.SmartAccount.SetRoot` | `programs/warden/src/state/smart_account.rs:103-115` | writes the tag and the key, a 32-byte key padded with a zero |
| `SmartAccount.SmartAccount.SetFrozen` | `programs/warden/src/state/smart_account.rs:128-146` | writes the three freeze fields |
| `SmartAccount.SmartAccount.Debit` | `programs/warden/src/instructions/transfer.rs:282-289` | charges the one bucket of the mint and leaves the other seven as they were |
| `PolicyRules.ExpandIsKeyed` | `programs/warden/src/state/smart_account.rs:255-313` | expansion succeeds exactly on at most four real distinct mints with ceilings and thresholds among them, and then looking a mint up in the slots equals looking it up in the wire list |
| `PolicyRules.KeyByMintIsKeyed` | `programs/warden/src/state/smart_account.rs:298-313` | re-keying succeeds exactly on distinct listed mints and puts each entry in the slot of its cap and nothing elsewhere |
| `PolicyRules.PlaceCapsLoop` | `programs/warden/src/state/smart_account.rs:266-272` | the first loop keeps every cap at its position |
| `PolicyRules.KeyByMintLoop` | `programs/warden/src/state/smart_account.rs:298-313` | the second loop fills the specified slots |
| `PolicyRules.CeilingChain` | `programs/warden/src/instructions/create_account.rs:242-273` | a grantable mint is spendable, in the same slot, and ceiling.per_tx <= cap.per_tx <= per_day <= per_30d |
| `PolicyRules.ThresholdChain` | `programs/warden/src/instructions/create_account.rs:242-273` | a mint the root may move directly is spendable, in the same slot |
| `PolicyRules.SubMaskIsBitwise` | `programs/warden/src/instructions/grant_session.rs:340-344` | the mask test says that no bit of the mask is missing from the ceiling |
| `Lifecycle.CreatedIsReady` | `programs/warden/src/instructions/create_account.rs:85-130` | a created account stores what was asked for (seed, root, origin and its hash, cluster, every number of the policy, and equal caps, ceilings and thresholds by mint), can hold honest ceremonies, has an ordered policy of version 1, and has neither signed, frozen nor spent |
| `Lifecycle.CreateDecides` | `programs/warden/src/instructions/create_account.rs:85-130` | creation succeeds exactly from a P-256 point encoding below the field prime, a Chrome extension origin with its hash, a real cluster tag, and a policy that is in order mint by mint |
| `Lifecycle.RefusalIsNamed` | `programs/warden/src/instructions/create_account.rs:85-130` | a refused creation names the first of its conditions that fails |
| `PolicyRules.ValidationIsByMint` | `programs/warden/src/instructions/create_account.rs:242-273` | validating the slots of an expanded policy is validating the wire lists mint by mint |
| `Lifecycle.OriginDecides` | `programs/warden/src/instructions/create_account.rs:217-228` | an origin passes exactly if it is the scheme followed by 32 characters from a to p |
| `Lifecycle.FindFrom` | `programs/warden/src/instructions/create_account.rs:69-75` | the derived address is the one of the highest bump that yields one |
| `Lifecycle.OriginIsPlain` | `programs/warden/src/instructions/create_account.rs:217-228` | an accepted origin is 51 bytes of plain ASCII |
| `Lifecycle.LessIsSmaller` | `programs/warden/src/instructions/create_account.rs:203` | the byte comparison with the field prime is the comparison of the numbers |
| `Handlers.HandleCreate` | `programs/warden/src/instructions/create_account.rs:85-130` | the handler makes the specified account of the zero-filled one, set up as asked for and untouched, or fails with the specified error |
| `Handlers.ExpandPolicy` | `programs/warden/src/state/smart_account.rs:255-290` | the loops of expansion compute the specified policy |
| `Sessions.MergeIsByMint` | `programs/warden/src/instructions/grant_session.rs:373-399` | the merge fails exactly if some lifetime cap is below what its mint has spent; otherwise it overlays the listed limits mint by mint, moves no held slot, forgets no spending and keeps the table in order |
| `Sessions.SlotLeft` | `programs/warden/src/instructions/grant_session.rs:364-372` | by pigeonhole a session of an ordered policy uses at most four of its eight slots, so there is always an empty one |
| `Sessions.GrantMeans` | `programs/warden/src/instructions/grant_session.rs:163-263` | an accepted grant consumes one nonce and nothing else of an unfrozen account, and leaves an ordered session that expires in time and is the prior one overlaid with the signed limits |
| `Sessions.GrantIsSigned` | `programs/warden/src/instructions/grant_session.rs:61-76` | two accepted grants of the same signed body leave the same authority, whatever the sessions' spending and replaced fields were |
| `Sessions.GrantBindsPrior` | `programs/warden/src/instructions/grant_session.rs:61-76` | a grant signed over the hash of some bytes is accepted only for an existing session whose account, key, caps and lifetime caps are what those bytes say |
| `Sessions.FreshGrantNeedsNoSession` | `programs/warden/src/instructions/grant_session.rs:215-230` | a document signed for a new session is never applied to an existing one |
| `Sessions.MergeIsSigned` | `programs/warden/src/instructions/grant_session.rs:373-399` | equal prior caps give equal merged caps and lifetime caps |
| `Sessions.RefusalIsNamed` | `programs/warden/src/instructions/grant_session.rs:163-263` | a refused grant names the first condition that fails, validation after the ceremony, the first faulty cap first, prior state before the merge |
| `Sessions.ShapeAndPolicyMean` | `programs/warden/src/instructions/grant_session.rs:273-362` | both validations pass exactly on the admissible grants |
| `Sessions.CapShapesMean` | `programs/warden/src/instructions/grant_session.rs:282-302` | the per-cap loop passes exactly on real distinct mints without day caps |
| `Sessions.SessionChain` | `programs/warden/src/instructions/grant_session.rs:354-360` | session per_tx <= ceiling <= cap.per_tx <= per_day <= per_30d, and spending is within the lifetime cap |
| `SessionKey.SessionKey.MergeAll` | `programs/warden/src/instructions/grant_session.rs:373-399` | the loop computes the merge; when it fails it has written exactly the caps before the refused one (`Sessions.LeftBehind`) |
| `SessionKey.SessionKey.MergeCap` | `programs/warden/src/instructions/grant_session.rs:374-397` | writes one slot or, when refused, nothing |
| `SessionKey.MergeCanFailHalfway` | `programs/warden/src/instructions/grant_session.rs:373-399` | an input on which the merge alone is not atomic |
| `Sessions.UntouchedExactly` | `programs/warden/src/instructions/grant_session.rs:373-399` | a failing merge leaves the session untouched exactly if every cap before the first one whose lifetime is below its mint's spending restates the limit already held; with at most two caps, exactly if the first is refused or restates |
| `SessionKey.SessionKey.Open` | `programs/warden/src/instructions/grant_session.rs:232-249` | a new session gets its identity and empty tables; an existing one must be the named one |
| `SessionKey.SessionKey.Bless` | `programs/warden/src/instructions/grant_session.rs:251-258` | replaces exactly the six replaced fields |
| `SessionKey.SessionKey.AuthorityHash` | `programs/warden/src/state/session.rs:104-119` | hashes the authority preimage of the session's own fields |
| `Handlers.HandleGrant` | `programs/warden/src/instructions/grant_session.rs:163-263` | the handler leaves account and session exactly as specified, or fails with the specified error |
| `Handlers.GrantChecked` | `programs/warden/src/instructions/grant_session.rs:208-262` | validation, prior-state check, opening and merging in the program's order |
| `Handlers.HandleRotate` | `programs/warden/src/instructions/rotate_nonce.rs:36-65` | its only effect is the consumed nonce |
| `Handlers.HandleFreeze` | `programs/warden/src/instructions/freeze.rs:54-86` | authorise first, then freeze and stamp the time |
| `Handlers.HandleUnfreeze` | `programs/warden/src/instructions/unfreeze.rs:62-118` | authorise first, then lift a root freeze after its timelock, and no other freeze |
| `Handlers.HandleRevokeRoot` | `programs/warden/src/instructions/revoke_session.rs:111-163` | the named session and the signed payer are checked before the ceremony; the handler itself changes only the nonce, and the closing is the framework's (`Steps.RevokeRootSteps`) |
| `Steps.RevokeRootSteps` | `programs/warden/src/instructions/revoke_session.rs:111-163` | the closed session and the address its rent went to are the ones in the signed body |
| `Transfers.ChargeMeans` | `programs/warden/src/instructions/transfer.rs:154-301` | an accepted transfer was authorised by exactly one of root and live session, on an unfrozen account, and charged to the one bucket of its mint |
| `Transfers.SessionTransferDecides` | `programs/warden/src/instructions/transfer.rs:236-301` | a session transfer is accepted exactly within the session's own limits and the account's limiter |
| `Transfers.RefusalIsNamed` | `programs/warden/src/instructions/transfer.rs:154-301` | a transfer refused before the value moves names the first condition of its path that fails |
| `Transfers.MoveRefusalIsNamed` | `programs/warden/src/instructions/transfer.rs:418-431` | a native transfer that cannot move names why: itself, more than there is, the rent floor, or a balance beyond 64 bits |
| `Transfers.SpendKeepsOrder` | `programs/warden/src/instructions/transfer.rs:275-301` | charging a session keeps its table in order |
| `Transfers.TokensLeaveTheVault` | `programs/warden/src/instructions/transfer.rs:321-380` | a token transfer passes exactly from an initialised token account of the vault to one of somebody else, of the same mint |
| `Handlers.HandleTransfer` | `programs/warden/src/instructions/transfer.rs:154-383` | the handler leaves account, session and balances exactly as specified, or fails with the specified error |
| `Handlers.ChargeSessionPath` | `programs/warden/src/instructions/transfer.rs:236-301` | the session is charged only after the account's bucket accepted |
| `Handlers.ChargeRootPath` | `programs/warden/src/instructions/transfer.rs:196-234` | the ceremony comes before the threshold check |
| `Handlers.HandleMoveLamports` | `programs/warden/src/instructions/transfer.rs:418-431` | both balances are computed before either is written; a refusal moves nothing |
| `Handlers.PendingLifetime` | `programs/warden/src/instructions/transfer.rs:261-279` | computes the one slot and value to commit later |
| `Steps.ExecSteps` | `programs/warden/src/lib.rs:17-75` | every accepted instruction appends one event and changes exactly what that event says, in accounts, sessions and balances |
| `Runs.RunInOrder` | `programs/warden/src/instructions/create_account.rs:242-273` | in every reachable world accounts and sessions are ordered, at their derived addresses, and consistent with each other |
| `RunSetup.SetupIsAsCreated` | `programs/warden/src/instructions/create_account.rs:108-130` | in every run each account has exactly one creation in the log, and root, origin, cluster and the whole policy are for good what it asked for |
| `RunSetup.AddressesAreDerived` | `programs/warden/src/instructions/create_account.rs:69-75` | in every reachable world accounts and sessions sit at the addresses derived from the literal seed words and their own fields |
| `RunSetup.LimitsAreFixed` | `programs/warden/src/constants.rs:5-43` | the limits of client data, freshness, mints, grants, time locks, masks and token accounts are these numbers |
| `Runs.ReachableChain` | `programs/warden/src/instructions/grant_session.rs:354-360` | in every reachable world session caps are below ceilings and those below account caps |
| `Runs.GrantsNeverRunOut` | `programs/warden/src/instructions/grant_session.rs:364-385` | in every reachable world a validated grant is refused by the merge only for a lifetime cap below the spending: the "no empty slot" error is unreachable |
| `RunCaps.AccountWideCaps` | `programs/warden/src/instructions/transfer.rs:185-301` | with any clock, all sessions and the root together stay within the account's per_day unless a day was returned to and within its per_30d unless a window was reopened, in particular whenever the days of its movements of the mint never go back; within both they are bounded in seconds too; a mint without a cap never leaves |
| `RunCaps.LimiterDecides` | `programs/warden/src/instructions/transfer.rs:282-289` | on every reachable account, while the days of its movements of the mint never go back, the new one included, an amount is accepted exactly if the ledger leaves room for it (away from the end of 64-bit time) |
| `RunCaps.RunTracks` | `programs/warden/src/buckets.rs:34-81` | over every run with any clock, every bucket is what its account's ledger makes of it; it is the very last 30 days of that ledger if the days of the movements never go back |
| `RunCaps.ClockIsSteady` | `programs/warden/src/buckets.rs:34-81` | under a clock that never goes back over the run, the days of the movements of every account and mint never go back |
| `RunSafety.RootIsBounded` | `programs/warden/src/instructions/transfer.rs:224-234` | every transfer by the root is within the threshold of its mint |
| `RunSafety.FreezeStopsOutflow` | `programs/warden/src/instructions/unfreeze.rs:90-117` | after a freeze no transfer, grant or second freeze comes before an unfreeze, which comes at least the timelock, at least an hour, later |
| `RunSafety.FreezePreserves` | `programs/warden/src/instructions/freeze.rs:81-85` | until it is lifted, a freeze keeps the account's buckets and every surviving session as they were |
| `RunSafety.FreezeIsRecorded` | `programs/warden/src/instructions/freeze.rs:81-85` | the stored freeze is the one in force in the log, with its original time; a guardian freeze is unreachable |
| `RunDecides.HonestFreezeDecides` | `programs/warden/src/instructions/freeze.rs:54-86` | an honest freeze succeeds exactly on an account that is not frozen and is otherwise refused as AlreadyFrozen |
| `RunDecides.HonestUnfreezeDecides` | `programs/warden/src/instructions/unfreeze.rs:90-113` | an honest unfreeze succeeds exactly once the timelock has passed, and otherwise is refused as not frozen, not yet, or never (beyond 64-bit time) |
| `RunDecides.RotationStaysPossible` | `programs/warden/src/instructions/rotate_nonce.rs:36-65` | an honest rotation succeeds in every reachable world, frozen or not |
| `RunDecides.HonestRevocationDecides` | `programs/warden/src/instructions/revoke_session.rs:111-163` | in every reachable world, frozen or not, an honest revocation by the root succeeds exactly on the account's own session of the signed key, for the signed payer, if the payer can take the rent |
| `RunDecides.SelfRevocationDecides` | `programs/warden/src/instructions/revoke_session.rs:166-189` | in every reachable world, frozen or not, a closing without the root succeeds exactly when the signer is the key of that very session and the account its own, if the payer can take the rent |
| `RunDecides.SessionAddressDecides` | `programs/warden/src/instructions/revoke_session.rs:198-217` | in every reachable world the address check of a stored session passes for exactly one account, the one the session names |
| `RunDecides.HonestGrantDecides` | `programs/warden/src/instructions/grant_session.rs:163-263` | in every reachable world an honest grant succeeds exactly if no freeze is in force, its address is free or holds the named session of this account, it is admissible under the policy, it was signed over the present authority, and no lifetime cap is below the spending |
| `RunDecides.HonestTransferDecides` | `programs/warden/src/instructions/transfer.rs:154-383` | in every reachable world an honest root transfer succeeds exactly if no freeze is in force, the instructions sysvar is passed, the amount is within the threshold, the ledger leaves room and the value can move, while the days of its movements of the mint never go back |
| `RunDecides.SpendDecides` | `programs/warden/src/instructions/transfer.rs:154-383` | under the same condition a session transfer succeeds exactly if no root arguments are passed, no freeze is in force, the session's own limits and the ledger leave room and the value can move |
| `RunDecides.HonestAlwaysPasses` | `programs/warden/src/root_verify/mod.rs:85-154` | honest ceremonies pass on every reachable account |
| `RunSafety.OneCeremonyOneAction` | `programs/warden/src/root_verify/mod.rs:147-153` | no two root instructions of a run, of whatever accounts, used the same challenge |
| `RunSafety.SignedTookEffect` | `programs/warden/src/root_verify/mod.rs:64-77` | whatever transcript and action bytes were signed under a consumed challenge, what they say by their literal layouts took effect whole: the logged ceremony is that transcript and action, at one step of the run all transcript fields were the account's current ones and the expiry in its window, the executed effect is the signed one, and a grant left the prior session overlaid with exactly the signed limits |
| `RunSafety.SignedByteMeans` | `programs/warden/src/root_verify/transcript.rs:35-62` | the first signed byte names the effect that the consumed challenge had: 3 freezes, 4 unfreezes, and so on |
| `RunSafety.NonceCounts` | `programs/warden/src/root_verify/mod.rs:150-153` | the stored nonce is the number of consumed ceremonies |
| `RunLedger.SessionLedger` | `programs/warden/src/instructions/transfer.rs:275-301` | a session has spent of each mint exactly what it moved since it was opened, across re-grants, and never more than its lifetime cap |
| `RunLedger.SlotsStay` | `programs/warden/src/instructions/grant_session.rs:379-398` | a granted mint keeps its slot until the session is closed |
| `RunLedger.ChargesAreAccounted` | `programs/warden/src/instructions/transfer.rs:282-301` | everything ever charged to an account is the spending of its live sessions, of its closed ones, and of the root |
| `RunLedger.LamportsAreConserved` | `programs/warden/src/instructions/transfer.rs:418-431` | every balance is what reached the address less what left it, over transfers, refunds of closed sessions and outside payments |
| `RunLedger.NativeMoves` | `programs/warden/src/instructions/transfer.rs:311-320` | a native transfer hands over exactly what it takes, leaves the vault at its rent floor or above, and is logged under the wrapped-SOL mint |
| `RunLedger.TokensMove` | `programs/warden/src/instructions/transfer.rs:321-380` | a token transfer is logged and charged under the mint of both token accounts, from the vault to somebody else, and moves no lamports |
| `RunLedger.OneSolBudget` | `programs/warden/src/instructions/transfer.rs:185-188` | native and wrapped SOL are charged to one ledger |
| `RunLedger.NativeOutflow` | `programs/warden/src/instructions/transfer.rs:185-188` | once an address is a smart account, the lamports that have left it are exactly the native transfers charged to its wrapped-SOL ledger, and the rest of that ledger is wrapped SOL |
| `Wrap.Unwrapped` | `spikes/03-txbudget/ts/src/wrap.ts:43-69` | decoding a packed payload and resolving its numbers gives back every inner instruction: program, ordered keys, flags and data |
| `Wrap.Packs` | `spikes/03-txbudget/ts/src/wrap.ts:183-195` | packing fails exactly on too many instructions, keys or data bytes, or on more than 256 different keys |
| `Wrap.OnePacked` | `spikes/03-txbudget/ts/src/wrap.ts:183-195` | the very bytes of one wrapped instruction with one key |
| `Wrap.OuterIsASet` | `spikes/03-txbudget/ts/src/wrap.ts:140-175` | the outer list starts with account and session and holds every key once; a flag is set exactly if it is listed after the key's last use as a program |
| `Wrap.OuterInOrder` | `spikes/03-txbudget/ts/src/wrap.ts:140-175` | the outer keys are account, session and the other named keys in the order of their first use |
| `Wrap.ProgramUseDropsFlags` | `spikes/03-txbudget/ts/src/wrap.ts:146` | an input on which a writable key reaches the outer list read-only |
| `Wrap.ListedProgramKeepsFlags` | `spikes/03-txbudget/ts/src/wrap.ts:143-152` | a key that an instruction lists besides naming it as its program keeps the listed flags |
| `Wrap.CollectMetas` | `spikes/03-txbudget/ts/src/wrap.ts:143-152` | the loops fill the table of metas as specified |
| `Wrap.PushInner` | `spikes/03-txbudget/ts/src/wrap.ts:189-195` | packs one instruction or throws |
| `Wrap.WrapForExecute` | `spikes/03-txbudget/ts/src/wrap.ts:140-195` | the packing code computes the specified key list and payload, or throws |
| `Wrap.DecodeExecuteData` | `spikes/03-txbudget/ts/src/wrap.ts:49-69` | the cursor loops decode as specified, reads past the end included |
| `Wrap.ReadsPastTheEnd` | `spikes/03-txbudget/ts/src/wrap.ts:49-69` | what a truncated payload decodes to past its end |
| `Wrap.SliceClamps` | `spikes/03-txbudget/ts/src/wrap.ts:49-69` | a slice keeps exactly the positions that exist |
| `Wrap.SearchLargest` | `spikes/03-txbudget/ts/src/wrap.ts:117-122` | doubling and bisecting end on a payload that fits next to one that does not; the largest one if shorter payloads never need more room |
| `Wrap.ChunkSizes.MaxStageChunkPayloadBytes` | `spikes/03-txbudget/ts/src/wrap.ts:86-125` | a remembered answer is one a search could give |

## Left out

- Keccak-256, SHA-256, ECDSA over P-256 and curve membership: functions without a definition, or facts the runtime vouches for.
- Program-address derivation: a function without a definition; that two kinds of account never share an address is the framework's refusal to initialise an address in use.
- Account loading, discriminators, ownership checks, zero-copy layout, padding, reserved fields and sizes: the framework's part; its refusals are one error, `Framework`.
- Rent of new accounts (anyone may have paid it in; its refund on closing is modelled), compute units and packet sizes.
- The token program: one trusted answer, whether its transfer succeeded. Token balances are therefore not modelled; the checks around the call are.
- Bit operations are written with division and remainder; `PolicyRules.SubMaskIsBitwise` ties the mask test to bits.
- `ping` (`lib.rs:19`): reads and writes no account.
- `wrapForExecute` outside its key list and payload: splitting off compute-budget instructions, address lookup tables, compiling and re-reading the message, and measuring a transaction's size are calls into web3.js, whose code is not part of the repository; the size is a parameter of `Wrap.SearchLargest`. `measure.ts` prints what those calls return.
- The on-chain spike with its substring matcher: `client_data.rs` and the program superseded it, and nothing calls it. The browser page calls the platform's authenticator, which the repository does not contain.
- Features described but not present: `execute`, `set_policy`, guardians, recovery and key rotation. No modelled instruction changes `generation` or the policy.
- Transactions of several instructions: a run is a sequence of accepted or rejected instructions with arbitrary surrounding transactions; an instruction undone by a later failure of its transaction is a rejected one.
- Precompile.Bind: reads of a 16-bit field beyond 16 bytes of data and overflow of an offset sum cannot happen after the length check, so their error branches are not written out.
- Buckets.RunNeverUnder: with any clock, bounds only the window that ends at the ring's day; `ClockLimits.WindowsHoldExactly` says when every window is bounded.
