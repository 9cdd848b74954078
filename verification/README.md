# A model of satd: script engine, reconnecting client, electrum proofs

This project models the parts of satd whose correctness is hard to see from one function, and
proves what they promise over every input, every flag set and every sequence of steps.

* **The script engine** (`consensus/`). `Machine`, `Signatures` and `VerifySpec` say what one
  instruction, one CHECKMULTISIG and one spend mean. `Engine` and `Verifier` are the loops and
  the mutable interpreter, proved to compute exactly that, with every index, assertion and
  64-bit operation shown safe. `Opcodes` tells each opcode on stacks written out item by item, and
  `Commitments` says exactly when a spend is accepted and what it then has committed to. On the
  meaning rest the main results: flags only restrict (`SoftFork`, with the exact condition),
  resource limits hold after every instruction (`Bounds`), minimal pushes make a scriptSig unique
  (`Malleability`), P2SH wrapping preserves a v0 spend (`P2shWrap`), what is accepted parses
  (`Acceptance`). `Grammar` and `Encoding` tie the
  separate instruction walkers to one grammar. `ScriptNum` and `Condition` hold the numbers and
  the two-integer condition stack. `TaprootSighash` covers the BIP 341 message, byte by byte, and
  its cache.
* **The reconnecting client** (`clients/go`). `Resilience` is the subscription as a state machine
  of pump, caller, store, server log and crash, and `Progress` what it does not ask for again.
  `Mirror` says what an edit does to the client's
  watch-set and what its message does at the node; `Order`, `DepthKey` and `Render` give the
  messages that replay the set on a fresh stream, and `RenderOrder` their order; `WatchRun` is the watch as a
  state machine, and `Replay` its objects and loops. `DescriptorSlides` is the fallback of a
  refused window slide. `TxDecode` is the transaction decoder.
* **Electrum** (`electrum-proto`). `Merkle` proves branches complete and sound; `Framing` is the
  cancel-safe line reader.

Hashes, curve operations and signature checks are function values: each theorem holds for all of
them. Flags are a set, so "f has fewer flags than g" is set inclusion. The network, clocks, the
store's failures, cancellations and the order of concurrent steps are parameters or steps of a
state machine, chosen freely. Unsigned 32- and 64-bit values are range types; stack elements and
scripts are byte sequences.

Five statements one might expect turn out to be false as such, and are proved with their exact
condition:

* Adding flags only restricts exactly when CLEANSTACK comes with WITNESS and WITNESS with P2SH
  (`SoftFork.OnlyRestrictsIffNested`). This holds for each checker and each hash by itself; the
  two spends that break it otherwise are an anchor output and the P2SH-wrapped program of OP_1.
* The node holds the mirror exactly when no held lifecycle was asked for with another auto-close
  depth since the stream was installed (`WatchRun.NodeIsMirrorIff`, for one edit
  `Mirror.EditAgreesIff`). clients/go/mirror.go:16-17 says a re-assertion overwrites, and so does the mirror;
  the node keeps the first depth (node/src/events/watch.rs:692-717). The code of both is followed.
* A run that begins with a subscribe delivers everything from there on exactly when there is an
  anchor, a stored cursor or the caller's (`Resilience.CompleteIff`). Without one the head position
  adopted at the first subscribe serves for as long as no later subscribe is without one
  (`Resilience.LiveStart`); a crash before anything was stored leads to one that is, and then an
  entry is lost (`Resilience.UnseededCrashLoses`). Durability and order need no anchor
  (`Resilience.SuccessIsDurable`, `Resilience.NothingReordered`).
* A line is refused for its length exactly when whole chunks without a newline pass the cap
  (`Framing.RefusedIff`); so the same line may be accepted or refused by its chunking, and a CR
  counts (`Framing.CarriageReturnCountsTowardsCap`).
* After refused slides the mirror falls back to the node's window, whatever the node accepts,
  exactly when every window since the last removal was asked for with room: fewer than eight
  unanswered before it, or at most eight asked for since that removal
  (`DescriptorSlides.MatchesExactly`). This is for runs that ask for each window once; asking again
  can break it, before the answer and after it (`DescriptorSlides.AskedAgainEarly`,
  `DescriptorSlides.AskedAgainLate`).

## Model

| member | source | states |
|---|---|---|
| ScriptNum.DecodeSerialize | consensus/src/scriptnum.rs:103-152 | Serializing any integer and decoding gives it back, and the bytes pass the minimality test. |
| ScriptNum.SerializeDecode | consensus/src/scriptnum.rs:37-62 | Every minimally encoded string re-serializes to itself. |
| ScriptNum.CastToBoolIsNonZero | consensus/src/stack.rs:8-19 | A byte string is true exactly when it decodes to non-zero, negative zero included. |
| ScriptNum.DecodeBytes | consensus/src/scriptnum.rs:103-121 | For up to 8 bytes the loop builds a pattern that fits 64 bits, each byte placed where it is still zero, and the sign bit masked off gives the signed little-endian value. |
| ScriptNum.SerializeInt64 | consensus/src/scriptnum.rs:124-152 | The digit loop yields the shortest sign-and-magnitude encoding of every 64-bit value, the least included. |
| ScriptNum.FromBytesChecked | consensus/src/scriptnum.rs:37-62 | A string that is too long, or not minimal where that is required, is refused; otherwise the decoded value. |
| ScriptNum.CastToBoolScan | consensus/src/stack.rs:8-19 | The scan returns the truth value defined on the bytes. |
| ScriptNum.OperandBound | consensus/src/scriptnum.rs:91-99 | An operand of at most 4 bytes is below 2^31 in size, so negation and arithmetic stay in 64 bits. |
| Condition.FirstFalseIs | consensus/src/condition.rs:21-66 | The stored position is the first false entry of the list, and is "none" exactly when all are true. |
| Condition.ConditionStack.PushBack | consensus/src/condition.rs:39-44 | The two integers keep representing the list with the value appended. |
| Condition.ConditionStack.PopBack | consensus/src/condition.rs:46-52 | They keep representing the list without its last entry. |
| Condition.ConditionStack.ToggleTop | consensus/src/condition.rs:54-65 | They keep representing the list with its last entry flipped. |
| Condition.ConditionStack.AllTrueNow | consensus/src/condition.rs:35-37 | One comparison decides whether every enclosing branch is taken. |
| Condition.ConditionStack.IsEmpty | consensus/src/condition.rs:29-31 | The size decides whether the list is empty. |
| Grammar.ReadEncode | consensus/src/eval.rs:156-226 | An encoded instruction is read back whole, whatever stands before and after it. |
| Grammar.EncodeRead | consensus/src/eval.rs:156-226 | What is read encodes to exactly the bytes that were read. |
| Grammar.UnparseInstrs | consensus/src/eval.rs:156-226 | A script that parses is the concatenation of its instructions. |
| Grammar.InstrsUnparse | consensus/src/eval.rs:156-226 | Instruction lists and the scripts made of them correspond one to one. |
| Grammar.Suffix | consensus/src/eval.rs:156-226 | Parsing a tail of a script from its start is parsing the script from that point. |
| Grammar.ReadInstruction | consensus/src/eval.rs:156-226 | The reader succeeds exactly where the grammar has an instruction and returns it and its end. |
| Grammar.IsPushOnly | consensus/src/verify.rs:13-48 | The walker answers whether the grammar gives pushes only up to the end. |
| Grammar.ScanForOpSuccess | consensus/src/witness.rs:83-125 | An OP_SUCCESS is found exactly when one is among the instructions before a fault. |
| Grammar.RemoveCodeSeparators | consensus/src/sighash.rs:415-445 | For every script the copy loop yields the code bytes, truncated tails included. |
| Grammar.CodeBytesFilter | consensus/src/sighash.rs:415-445 | Up to the first fault those bytes are the script of the instruction list with the separators filtered out; on a script that parses, all of them are. |
| Encoding.DerReference | consensus/src/encoding.rs:9-69 | The index checks accept exactly the strings of the form 30 len 02 len R 02 len S hashtype with minimal non-negative R and S. |
| Encoding.DerUnique | consensus/src/encoding.rs:9-69 | An encoded signature determines R, S and the hash type. |
| Encoding.SignatureRules | consensus/src/encoding.rs:74-126 | A signature passes exactly when it is empty or is DER, low-S and of a defined hash type, each where a flag asks for it. |
| Encoding.PubkeyRules | consensus/src/encoding.rs:129-165 | A key passes exactly when its size and first byte are those the flags ask for. |
| Encoding.BuildSinglePush | consensus/src/verify.rs:235-256 | The buffer filled is the encoding of one push of the data. |
| Encoding.DeletedSize | consensus/src/encoding.rs:203-283 | Result length plus matches times pattern length is the script length, for every script and pattern. |
| Encoding.FindAndDelete | consensus/src/encoding.rs:203-283 | The loop with its two positions computes the deletion and the number of matches at boundaries. |
| Encoding.MatchIsInstr | consensus/src/encoding.rs:203-283 | At a boundary the pattern's bytes match exactly when the instruction there is the pattern's. |
| Encoding.DeleteIsFilter | consensus/src/encoding.rs:203-283 | On every script, deleting an encoded instruction filters the instruction list, keeps everything from the first fault on, and counts the occurrences. |
| Encoding.DeletePush | consensus/src/eval.rs:1110-1153 | Deleting a signature's push filters that push, counts its occurrences, and leaves a script that parses. |
| Encoding.NothingDeleted | consensus/src/encoding.rs:203-283 | With no match the script is unchanged. |
| Signatures.GreedyDecides | consensus/src/eval.rs:883-1046 | When no encoding error stops it, the greedy loop succeeds exactly when an order-preserving injective assignment of signatures to keys passes every check; it makes at most as many checks as keys. |
| Signatures.FirstKey | consensus/src/eval.rs:883-1046 | Exchange step: an assignment exists exactly when one exists after the greedy choice at the first key. |
| Signatures.CheckMultiSigMeaning | consensus/src/eval.rs:883-1046 | A result pops exactly keys, signatures and three more; its truth is assignability; false under NULLFAIL means all signatures empty; under NULLDUMMY the extra item is empty; checks fit the op limit. |
| Machine.StepFrame | consensus/src/eval.rs:266-1060 | One instruction moves the position by one, the code start only to the next instruction, the condition depth by at most one, and keeps the budget initialised. |
| Machine.EffectsInRange | consensus/src/eval.rs:452-606 | Every entry of the shuffle table only names items that its own depth check guarantees. |
| Opcodes.SignedCodeLaw | consensus/src/eval.rs:1110-1153 | Before segwit the signed code is the code without the instructions that push the signature, which CONST_SCRIPTCODE refuses; in segwit it is the code. |
| Opcodes.CheckSigLaw | consensus/src/eval.rs:813-847 | With a signature and a key on top of any stack, CHECKSIG asks about that signature under that key over the signed code, returns exactly when the encodings, NULLFAIL and VERIFY allow it, and leaves the rest with the verdict. |
| Opcodes.SchnorrLaw | consensus/src/eval.rs:1155-1205 | A tapscript check passes exactly when the key is not empty, a signature can pay 50 units and verifies under a 32-byte key, and other keys are not discouraged. |
| Opcodes.TapscriptCheckSigLaw | consensus/src/eval.rs:813-847 | In tapscript CHECKSIG passes exactly so, pays, and leaves whether there was a signature. |
| Opcodes.CheckSigAddLaw | consensus/src/eval.rs:849-881 | CHECKSIGADD reads key, counter and signature from the top down and leaves the counter plus the outcome. |
| Opcodes.CheckMultiSigLaw | consensus/src/eval.rs:883-1046 | With dummy, signatures, their count, keys and their count on any stack, CHECKMULTISIG leaves the rest with whether the signatures can be given to keys in order, and returns exactly when NULLFAIL, NULLDUMMY and VERIFY allow it. |
| Opcodes.AssignableReversed | consensus/src/eval.rs:906-1010 | Walking both lists from the top decides the same as walking them in script order. |
| Opcodes.MultiSigRefuses | consensus/src/eval.rs:888-944 | Key counts outside 0 to 20, more than 201 operations and signature counts outside 0 to the key count are refused, in that order. |
| Opcodes.SigOpcodesByVersion | consensus/src/eval.rs:849-886 | CHECKMULTISIG is refused in tapscript, CHECKSIGADD outside it. |
| Opcodes.PairShuffles | consensus/src/eval.rs:452-606 | 2OVER, 2ROT and 2SWAP, item by item. |
| Opcodes.WideShuffles | consensus/src/eval.rs:452-606 | 2DROP, 2DUP, 3DUP and ROT, item by item. |
| Opcodes.SmallShuffles | consensus/src/eval.rs:452-606 | DROP, DUP and NIP, item by item. |
| Opcodes.TwoShuffles | consensus/src/eval.rs:452-606 | OVER, SWAP and TUCK, item by item. |
| Opcodes.PickRollLaw | consensus/src/eval.rs:563-587 | PICK copies and ROLL moves the item with as many above it as the top says. |
| Opcodes.NumberRead | consensus/src/scriptnum.rs:37-62 | An operand is a number exactly when it has at most four bytes and, under MINIMALDATA, is what its number is written as. |
| Opcodes.UnaryLaws | consensus/src/eval.rs:639-664 | What each unary opcode leaves. |
| Opcodes.ArithmeticLaws | consensus/src/eval.rs:666-728 | ADD, SUB, MIN and MAX, the deeper operand first. |
| Opcodes.LogicLaws | consensus/src/eval.rs:666-728 | The Boolean and equality opcodes on numbers. |
| Opcodes.CompareLaws | consensus/src/eval.rs:666-728 | The four comparisons, the deeper operand first. |
| Opcodes.WithinLaw | consensus/src/eval.rs:730-751 | WITHIN takes its least value in and leaves its greatest out. |
| Opcodes.HashLaws | consensus/src/eval.rs:753-806 | Which hashes each hash opcode applies to the top. |
| Opcodes.EqualLaws | consensus/src/eval.rs:617-637 | EQUAL and EQUALVERIFY compare the two top items. |
| Opcodes.TopLaws | consensus/src/eval.rs:422-615 | VERIFY, IFDUP, SIZE, DEPTH, NOP and RETURN. |
| Opcodes.NumberLaws | consensus/src/eval.rs:309-313 | The number opcodes push their number. |
| Opcodes.LockTimeLaw | consensus/src/eval.rs:317-336 | CHECKLOCKTIMEVERIFY passes exactly for five-byte numbers that are not negative and satisfy the checker, or without its flag, and leaves the stack. |
| Opcodes.SequenceLaw | consensus/src/eval.rs:338-362 | CHECKSEQUENCEVERIFY likewise, and passes numbers with bit 31 set unchecked. |
| Opcodes.NopLaw | consensus/src/eval.rs:364-368 | The spare NOPs do nothing unless discouraged. |
| Opcodes.Underflow | consensus/src/eval.rs:452-806 | With fewer items than it needs an opcode is refused. |
| Opcodes.DisabledSet | consensus/src/eval.rs:129-150 | The disabled opcodes. |
| Opcodes.SizeLimit | consensus/src/eval.rs:246-251 | Scripts over 10000 bytes are refused, but not in tapscript. |
| Opcodes.OpSuccessIsUndefined | consensus/src/witness.rs:131-138 | In tapscript the OP_SUCCESS opcodes are those that would be refused as undefined, but for VERIF, VERNOTIF and 0xff; every disabled opcode is one. |
| Opcodes.PushLength | consensus/src/eval.rs:156-226 | The length of a push is its opcode, or the little-endian number in the one, two or four bytes after it. |
| Opcodes.SubUndoesAdd | consensus/src/eval.rs:666-728 | SUB takes back what ADD of the same number did. |
| Opcodes.RotThrice | consensus/src/eval.rs:452-606 | ROT three times is nothing. |
| Opcodes.Hash256IsTwice | consensus/src/eval.rs:799-806 | HASH256 is SHA256 twice. |
| Opcodes.SkippedStep | consensus/src/eval.rs:266-306 | In a branch not taken an instruction only counts, or is refused for its size, the count, being disabled, or being a separator. |
| Opcodes.IfLaw | consensus/src/eval.rs:370-406 | IF and NOTIF take the top item, if it is a clean condition where that is asked, and open the branch it selects. |
| Opcodes.NotIfIsIfNot | consensus/src/eval.rs:370-406 | NOTIF is IF of the negated condition. |
| Opcodes.BranchLaws | consensus/src/eval.rs:370-420 | A branch inside one not taken is not taken; ELSE turns the innermost over, ENDIF ends it. |
| Opcodes.BalanceLaw | consensus/src/eval.rs:408-420 | A run that ends has closed every branch, and closes none that is not open. |
| Opcodes.AltLaws | consensus/src/eval.rs:438-450 | FROMALTSTACK takes back what TOALTSTACK put away. |
| Opcodes.SeparatorLaw | consensus/src/eval.rs:808-811 | A separator starts the signed code after itself and records its position. |
| Engine.Shuffle | consensus/src/eval.rs:452-606 | The in-place stack shuffles produce the declared rearrangement, or the underflow error. |
| Engine.PickOrRoll | consensus/src/eval.rs:563-580 | PICK and ROLL copy or move the item at the given depth, with their range errors. |
| Engine.Numeric | consensus/src/eval.rs:638-750 | Unary, binary and WITHIN read their operands in order and leave the numeric result. |
| Engine.Unary | consensus/src/eval.rs:638-663 | Each unary operation computes its value without overflow. |
| Engine.Binary | consensus/src/eval.rs:665-728 | Each binary operation computes its value on the operands in stack order. |
| Engine.LockTime | consensus/src/eval.rs:317-336 | CHECKLOCKTIMEVERIFY reads 5 bytes, refuses negatives and defers to the lock-time check. |
| Engine.Sequence | consensus/src/eval.rs:338-362 | CHECKSEQUENCEVERIFY likewise, with the disable bit looked at first. |
| Engine.DeleteSignature | consensus/src/eval.rs:1110-1153 | A legacy signature is deleted from the code signed; CONST_SCRIPTCODE refuses that. |
| Engine.CheckSigPreTapscript | consensus/src/eval.rs:1110-1153 | Encoding checks, the signature check and NULLFAIL in that order, with one check at most. |
| Engine.CheckSigTapscript | consensus/src/eval.rs:1156-1193 | The weight is charged for a non-empty signature, inside its signed 64-bit field, then key type and signature are checked. |
| Engine.MatchSignatures | consensus/src/eval.rs:976-1006 | The loop over signatures and keys from the top of the stack is the greedy matching. |
| Engine.CleanUp | consensus/src/eval.rs:1008-1031 | The clean-up pops every argument, applies NULLFAIL to each signature left and NULLDUMMY to the extra item. |
| Engine.MultiSig | consensus/src/eval.rs:883-1046 | CHECKMULTISIG on the mutable stack is its meaning on values, limits and errors included. |
| Engine.Interpreter.Flow | consensus/src/eval.rs:370-420 | IF, NOTIF, ELSE, ENDIF, VERIFY and RETURN act on the compressed condition stack as on the plain list. |
| Engine.Interpreter.CheckSig | consensus/src/eval.rs:813-847 | CHECKSIG and CHECKSIGVERIFY leave the state the meaning gives. |
| Engine.Interpreter.CheckSigAdd | consensus/src/eval.rs:849-881 | CHECKSIGADD adds the outcome to the counter under the three items' order. |
| Engine.Interpreter.CheckMulti | consensus/src/eval.rs:883-1046 | CHECKMULTISIG inside the loop, refused in tapscript. |
| Engine.Interpreter.Turn | consensus/src/eval.rs:266-1060 | One turn of the loop is one step of the meaning: screening, dispatch, then the stack size limit. |
| Engine.EvalScript | consensus/src/eval.rs:232-1072 | The whole loop returns the stack, exec data and number of checks of the meaning, or its error, for every script; no index, assertion or 64-bit operation fails, the weight's included. |
| VerifySpec.P2shNeedsItem | consensus/src/verify.rs:159-169 | A P2SH script can only succeed on a non-empty stack, so the assertion on the saved stack holds. |
| Verifier.SerializedWitnessSize | consensus/src/witness.rs:385-392 | The loop adds up the serialized size of the witness, inside 64 bits. |
| Verifier.TaprootMerkleRoot | consensus/src/witness.rs:322-332 | The loop over 32-byte nodes folds the path with sorted branch hashes. |
| Verifier.ExecuteWitnessScript | consensus/src/witness.rs:28-75 | OP_SUCCESS first, then stack limits, evaluation and the single true item. |
| Verifier.VerifyTaprootMethod | consensus/src/witness.rs:203-287 | Annex, key path, control block, commitment, leaf version and the signed 64-bit budget in order. |
| Verifier.VerifyWitnessProgram | consensus/src/witness.rs:145-287 | The dispatch over version, program size and flags. |
| Verifier.RedeemScript | consensus/src/verify.rs:145-207 | The P2SH leg on the saved stack. |
| Verifier.VerifyScriptMethod | consensus/src/verify.rs:87-232 | The mutable chain of evaluations returns the verdict of the meaning for every scriptSig, scriptPubKey and witness: it terminates and no assert, unwrap, index or weight operation fails. |
| Commitments.ScriptHashCommits | consensus/src/witness.rs:155-180 | A 32-byte v0 program accepts a witness exactly when the last item hashes to it and runs from the others to a single true item. |
| Commitments.KeyHashCommits | consensus/src/witness.rs:181-205 | A 20-byte v0 program accepts exactly two items whose second has that HASH160, with the first a valid signature under it over the key hash script. |
| Commitments.SmallerFirst | consensus/src/witness.rs:305-318 | A branch hashes its smaller child first, whichever side it is on. |
| Commitments.PathLeadsToRoot | consensus/src/witness.rs:322-333 | From every leaf of every script tree the path in the control block leads to the root. |
| Commitments.KeyPathCommits | consensus/src/witness.rs:206-287 | A taproot witness of one item, annex aside, is accepted exactly when the checker accepts it under the output key with that annex. |
| Commitments.ScriptPathCommits | consensus/src/witness.rs:206-287 | One of more items is accepted exactly when the leaf is in the tree the output key commits to and the script runs from the other items within 50 units more than the witness has bytes, or is of an open version or has an OP_SUCCESS. |
| Commitments.ProgramCommits | consensus/src/witness.rs:145-287 | Every program is accepted exactly when the witness satisfies it in one of these ways. |
| Commitments.ProgramForm | consensus/src/verify.rs:60-84 | A witness program is a version opcode and one push of 2 to 40 bytes, and nothing else. |
| Commitments.P2shForm | consensus/src/verify.rs:51-58 | The form of a P2SH script. |
| Commitments.AcceptedIff | consensus/src/verify.rs:87-232 | A spend is accepted exactly when its scripts end in true, its program is satisfied with no room in the scriptSig, and the stack and the witness are clean where flags ask for it. |
| Commitments.P2shChecksHash | consensus/src/verify.rs:119-136 | A P2SH script compares the HASH160 of the top item with its own. |
| Commitments.SpendCommits | consensus/src/verify.rs:87-232 | In an accepted spend the witness satisfies the output's own program, or that of a redeem script which has the output's hash and is all the scriptSig pushes. |
| SoftFork.StepRelaxed | consensus/src/eval.rs:266-1060 | An instruction that succeeds under more flags has the same outcome under fewer. |
| SoftFork.RunRelaxed | consensus/src/eval.rs:232-1072 | So does every successful evaluation from any point. |
| SoftFork.EvalRelaxed | consensus/src/eval.rs:232-1072 | It ends in the same stack and exec data. |
| SoftFork.ProgramRelaxed | consensus/src/witness.rs:145-287 | A witness program accepted under more flags is accepted under fewer. |
| SoftFork.VerifyRelaxed | consensus/src/verify.rs:87-232 | With nested flags, a spend accepted under more flags is accepted under fewer. |
| SoftFork.AnchorBreaksCleanStack | consensus/src/verify.rs:138-232 | With any hashes and any checker, CLEANSTACK without WITNESS refuses an anchor spend that CLEANSTACK with WITNESS accepts. |
| SoftFork.WrapBreaksWitness | consensus/src/verify.rs:138-232 | With any checker and any hashes that do not take OP_1 to zeros, WITNESS without P2SH refuses the P2SH-wrapped spend of OP_1 that both together accept. |
| SoftFork.OnlyRestrictsIffNested | consensus/src/verify.rs:87-232 | For each checker and each such hash by itself: every larger flag set accepts no more spends than f exactly when f has CLEANSTACK only with WITNESS and WITNESS only with P2SH. |
| P2shWrap.BareV0 | consensus/src/verify.rs:138-207 | A bare v0 spend with an empty scriptSig has exactly the verdict of its witness program. |
| P2shWrap.WrappedV0 | consensus/src/verify.rs:138-207 | So has the P2SH-wrapped spend. |
| P2shWrap.P2shWrappingPreserves | consensus/src/verify.rs:138-256 | With P2SH and WITNESS, the two give the same verdict, errors included, for every program and witness. |
| Bounds.RunBounded | consensus/src/eval.rs:266-1060 | Every state visited from a bounded state is bounded. |
| Bounds.EvalBounded | consensus/src/eval.rs:273-285 | At every visited state: at most 201 ECDSA checks and none in tapscript, weight left is the budget less 50 per charged check and not negative, stacks at most 1000, elements at most 520 bytes if they started so; a failing evaluation made at most 201 checks. |
| Bounds.EvalKeepsLimits | consensus/src/eval.rs:1054-1057 | A successful evaluation of a stack within the limits ends within them. |
| Bounds.MultiSigChecks | consensus/src/eval.rs:903-906 | The checks of one CHECKMULTISIG are paid for by the op count. |
| Bounds.StepWeight | consensus/src/eval.rs:1164-1173 | Every step keeps the weight equation. |
| Malleability.MinimalIsCanonical | consensus/src/encoding.rs:171-197 | A push passes the minimality test exactly when it is the canonical push of its data. |
| Malleability.ScriptSigIsCanonical | consensus/src/eval.rs:300-312 | Under SIGPUSHONLY and MINIMALDATA an accepted scriptSig is the canonical script of the stack it leaves. |
| Malleability.ScriptSigUnique | consensus/src/eval.rs:156-312 | Two such scriptSigs that leave the same stack are byte-identical. |
| Malleability.CanonicalScriptWorks | consensus/src/verify.rs:13-48 | Every stack within the limits is left by its canonical script, which is push-only. |
| Acceptance.AcceptedCodeParses | consensus/src/eval.rs:232-1072 | A script that evaluates to the end parses, and so does the code after every separator it executed. |
| Acceptance.WitnessScriptParses | consensus/src/witness.rs:28-75 | An accepted witness script parses, unless a tapscript OP_SUCCESS stands before the fault. |
| Acceptance.SpendScriptsParse | consensus/src/verify.rs:87-232 | An accepted spend's scriptSig, scriptPubKey and redeem script parse. |
| Acceptance.ProgramRevealsParsing | consensus/src/witness.rs:145-287 | The script an accepted witness program reveals parses, but for a taproot leaf of another version or with an OP_SUCCESS before the fault. |
| Acceptance.SpendWitnessParses | consensus/src/verify.rs:87-232 | So it is for the whole spend, of the output's own program and of the redeem script's. |
| Wire.CompactRoundTrip | clients/go/tx.go:225-306 | A compact size is read back whatever follows it. |
| Wire.CompactForm | clients/go/tx.go:295-306 | A compact size is one byte below 253, else a tag and the number in the fewest of 2, 4 or 8 bytes. |
| Wire.CompactPrefix | clients/go/tx.go:295-306 | Compact sizes are prefix-free. |
| TaprootSighash.MessageUnique | consensus/src/sighash.rs:159-216 | Equal signature messages agree on hash type, spend type and every committed field. |
| TaprootSighash.MessageLayout | consensus/src/sighash.rs:159-216 | When there is a message, and at which byte each of its fields is, for every hash type, key path or script path, with and without an annex. |
| TaprootSighash.AllFixesTransaction | consensus/src/sighash.rs:74-216 | Under SIGHASH_ALL or DEFAULT, equal messages are of the same input of the same transaction with the same spent outputs, unless SHA-256 collides on one of its five streams. |
| TaprootSighash.ComputeTxHashes | consensus/src/sighash.rs:74-99 | The three loops hash the concatenated encodings of the whole transaction. |
| TaprootSighash.FedMessage | consensus/src/sighash.rs:170-215 | Feeding the parts one after the other feeds the message. |
| TaprootSighash.TxSignatureChecker.TaprootSighash | consensus/src/sighash.rs:159-216 | With any state of the shared cache and the per-input cell, the message is the freshly computed one, None cases included, and both caches stay right. |
| TaprootSighash.CheckAll | consensus/src/lib.rs:101-195 | For every list of verifications of any inputs in any order, repeated or not, sharing one cache, each with any checks under any hash types, every check sees the fresh message. |
| Resilience.StepKeeps | clients/go/resilience.go:214-564 | Every step of pump, caller, store, server or crash keeps the delivery invariant, but for a subscribe without any anchor. |
| Resilience.AtLeastOnce | clients/go/resilience.go:214-564 | From a seeded anchor, over every sequence of steps: the stored cursor tags an item Next returned, every entry below it was returned, every entry below the resume point was returned or is on its way, and what was received is returned in order with nothing lost. |
| Resilience.LiveStart | clients/go/resilience.go:512-521 | With no anchor, the head position adopted at the first subscribe serves as one, for as long as no later subscribe is without one. |
| Resilience.UnseededCrashLoses | clients/go/resilience.go:296-301 | On every log, a crash before anything was stored, with no cursor of the caller's, loses an entry although the caller has caught up. |
| Resilience.CompleteIff | clients/go/resilience.go:498-564 | For every log: all runs that begin with a subscribe hand a caller who has caught up every entry from their start on exactly when the store or the caller gives a cursor. |
| Resilience.NothingReordered | clients/go/resilience.go:214-472 | Over every run, anchored or not, the stored cursor is the first one or tags a returned item, and what was received is returned in order with nothing lost. |
| Resilience.SuccessIsDurable | clients/go/resilience.go:282-312 | Over every run, anchored or not, when a commit succeeds the store holds the tag of the last returned item. |
| Resilience.RestartMissesNothing | clients/go/resilience.go:498-564 | After any history, a crash and a connect start the stream no later than the first entry not returned. |
| Resilience.CaughtUp | clients/go/resilience.go:317-472 | A caller who has caught up has had every entry since the anchor. |
| Progress.EntriesTagged | clients/go/resilience.go:455-484 | In every run a received entry that carries a cursor is tagged with the cursor after it. |
| Progress.ReceivedOnce | clients/go/resilience.go:498-564 | With no crash and no lag notice, once an entry that carries a cursor was received nothing up to it is received again, however often the stream reconnects. |
| Progress.NothingBelowAgain | clients/go/resilience.go:317-472 | From any point until the next crash, nothing below the high-water is received again unless a lag notice names a position below it. |
| Progress.AfterLag | clients/go/resilience.go:428-450 | After a lag notice nothing below the position it names is received again. |
| Progress.ReopensAtHighWater | clients/go/resilience.go:537-564 | A reconnect in the same process starts at the in-memory high-water, whatever the store holds. |
| Resilience.ResilientSubscription.BeginCommit | clients/go/resilience.go:283-293 | The locked section asks for a write exactly when the armed cursor is not the committed one, and otherwise disarms. |
| Resilience.ResilientSubscription.EndCommit | clients/go/resilience.go:303-310 | It retires only the cursor that was written. |
| Resilience.ResilientSubscription.CommitDue | clients/go/resilience.go:282-312 | The code does the caller's commit steps of the state machine, for every outcome of the write. |
| Resilience.ResilientSubscription.Next | clients/go/resilience.go:214-249 | A call does the caller's steps in order: it returns the put-aside item before a new one, the end of a closed channel, or the cancellation, exactly as the machine does. |
| Resilience.ResilientSubscription.Commit | clients/go/resilience.go:265-267 | The same commit steps with no item. |
| Resilience.ResilientSubscription.SeedResume | clients/go/resilience.go:537-564 | The anchor is memory, else the store, which then counts as committed, else the caller's cursor, else none. |
| Resilience.ResilientSubscription.Tag | clients/go/resilience.go:463-482 | The high-water advances before the item is tagged with it. |
| Mirror.EditFollows | clients/go/watch.go:148-475 | What a live edit of any kind sends takes the node from the mirror before to the mirror after, but for lifecycle depths, of which it keeps the ones it had. |
| Mirror.EditAgreesIff | node/src/events/watch.rs:692-717 | For a node that holds the mirror, the edit does to it what it does to the mirror exactly when it asks for no other depth of a held lifecycle. |
| Mirror.ScriptsFollow | clients/go/watch.go:148-173 | Floors travel as a parallel list or not at all; a zero floor is none. |
| Mirror.LifecyclesFollow | events/src/grpc.rs:2230-2279 | A lifecycle message registers new transactions and leaves the depths of held ones. |
| Mirror.LifecyclesDropped | clients/go/watch.go:238-246 | A removal without depths drops lifecycles and no alarm. |
| Mirror.AlarmsFollow | clients/go/watch.go:255-269 | Arming alarms never takes the shape of a lifecycle message: it sends nothing when no depth is left. |
| Mirror.AlarmsDisarmed | clients/go/watch.go:273-285 | Nor does disarming them. |
| Mirror.MaskTwice | clients/go/prefix.go:39-46 | Masking a prefix twice is masking it once. |
| Mirror.MaskBits | clients/go/prefix.go:39-46 | Masking keeps as many bits as the prefix says and clears the rest. |
| Mirror.SendsAtMostOne | clients/go/watch.go:148-475 | An edit sends one message, and none exactly for an empty batch, no valid depth or an invalid prefix. |
| Mirror.ScriptsAfter | clients/go/watchset.go:81-94 | After any edit, which scripts are watched and with which floor. |
| Mirror.OutpointsAfter | clients/go/mirror.go:25-29 | After any edit, which outpoints are watched. |
| Mirror.LifecyclesAfter | clients/go/watchset.go:108-116 | After any edit, which lifecycles are watched and with which depth. |
| Mirror.AlarmsAfter | clients/go/watchset.go:121-135 | After any edit, which alarms stand. |
| Mirror.DescriptorsAfter | clients/go/watchset.go:139-166 | After any edit, which descriptors are watched with which window. |
| Mirror.PrefixesAfter | clients/go/watchset.go:171-187 | After any edit, which buckets are watched; a batch with an invalid pair is refused. |
| Mirror.TargetsAfter | clients/go/watchset.go:192-226 | After any edit, which targets are watched; a batch that could pass 16 is refused. |
| Mirror.SettingsAfter | clients/go/resilientwatch.go:333-452 | After any edit, which categories and raw transaction setting hold. |
| Order.SortedUnique | clients/go/watchset.go:356-415 | A set has one list sorted by its keys. |
| Order.LexLessIff | clients/go/watchset.go:356-415 | The order is by the first difference, a beginning before its continuations. |
| Order.SortedElements | clients/go/watchset.go:356-395 | Collecting and sorting the keys yields that list. |
| DepthKey.KeyInjective | clients/go/mirror.go:638-647 | The comma-joined key determines the depth list. |
| DepthKey.BuildKey | clients/go/mirror.go:638-647 | The loop writes the key out from left to right. |
| Render.RenderedRebuilds | clients/go/mirror.go:330-444 | The rendered messages, applied to the empty set by the node's own rules, give the mirror back. |
| RenderOrder.RenderedAscends | clients/go/mirror.go:330-444 | Every rendering has the settings first, then kind by kind, inside a kind by depth, key or descriptor, and its items sorted. |
| Render.LifecyclesBack | clients/go/mirror.go:368-383 | One message per depth rebuilds the lifecycles; no transaction is in two, so the node's rule for held ones never shows. |
| Render.AlarmsBack | clients/go/mirror.go:393-409 | One message per key rebuilds the alarms. |
| Render.KeyHasDepth | clients/go/mirror.go:385-409 | Every alarm message has a depth of at least 1, so none reads as a lifecycle message. |
| Render.SameSetSameKey | clients/go/mirror.go:387-409 | Transactions with the same depths travel under one key, in one message. |
| Render.UnderKey | clients/go/mirror.go:393-409 | All transactions under a key have exactly the depths that are sent with it. |
| Render.ScriptsBack | clients/go/mirror.go:344-360 | The script message rebuilds the scripts and floors. |
| Render.MutateKeepsSound | clients/go/watchset.go:81-226 | Every edit keeps alarms at depth 1 or more, buckets masked and targets under their identity. |
| Replay.GroupAlarms | clients/go/mirror.go:622-634 | The alarmed transactions in order, each with exactly its depths in order. |
| Replay.RenderScripts | clients/go/mirror.go:344-360 | The loops yield the message of the sorted scripts, with floors when any script has one. |
| Replay.RenderLifecycles | clients/go/mirror.go:368-383 | Grouping sorted transactions by depth yields the sorted messages. |
| Replay.RenderAlarms | clients/go/mirror.go:393-409 | Grouping by key, with the depths last stored under it, yields the messages in key order. |
| Replay.RenderDescriptors | clients/go/mirror.go:411-420 | One message per descriptor, sorted. |
| Replay.RenderPrefixes | clients/go/mirror.go:422-432 | Sorted buckets, masked again, or a refusal exactly when one is invalid. |
| Replay.RenderSilent | clients/go/mirror.go:434-441 | The targets in the order of their identities. |
| Replay.ControlMessages | clients/go/mirror.go:330-444 | All of it in the one order that makes a replay byte-identical, or a refusal exactly when a prefix is invalid. |
| Replay.Collect | clients/go/mirror.go:370-374 | Appending to per-key lists keeps the order of the items under each key. |
| Replay.WatchSet.AddScripts | clients/go/watchset.go:81-94 | A later floor for the same script wins. |
| Replay.WatchSet.AddTxLifecycle | clients/go/watchset.go:108-116 | The loop gives every transaction the auto-close depth. |
| Replay.WatchSet.AddDepthAlarms | clients/go/watchset.go:121-135 | The two loops add the cross product without depths below 1. |
| Replay.WatchSet.RemoveDepthAlarms | clients/go/mirror.go:37-43 | The two loops remove the cross product. |
| Replay.WatchSet.AddScriptPrefixes | clients/go/watchset.go:171-187 | Valid buckets are held masked, invalid pairs as they are. |
| Replay.WatchSet.RemoveScriptPrefixes | clients/go/mirror.go:234-238 | Removal matches the masked bucket. |
| Replay.WatchSet.AddSilentPayments | clients/go/watchset.go:192-226 | A batch that may pass the cap is refused whole; otherwise a repeated identity takes the last target. |
| Replay.WatchSet.AddDescriptor | clients/go/watchset.go:139-166 | One descriptor takes the new window and its history slides; other descriptors are untouched. |
| Replay.WatchSet.RemoveDescriptor | clients/go/mirror.go:45-48 | The descriptor goes, history included. |
| Replay.WatchSet.ForgetRejected | clients/go/mirror.go:168-232 | Exactly the refused items of every kind go, and a refused window falls back as specified. |
| Replay.WatchSet.Change | clients/go/resilientwatch.go:333-452 | Each edit changes its own kind only, or nothing when refused; a descriptor's history moves with its window. |
| Replay.ResilientWatch.EditErr | clients/go/resilientwatch.go:590-618 | Does the machine's step for an edit: the mirror takes it, a live stream gets its message, a closed one is dropped, a refused edit changes nothing. |
| Replay.ResilientWatch.Teardown | clients/go/resilientwatch.go:620-625 | The stream is gone and nothing else changes. |
| Replay.ResilientWatch.ConnectOnce | clients/go/resilientwatch.go:953-1019 | Does the machine's step for a reconnect: the stream is installed exactly when the rendering and the cursor went out whole. |
| Replay.ResilientWatch.Run | clients/go/resilientwatch.go:590-1019 | For every list of edits, losses and reconnects the object ends where the machine does. |
| WatchRun.NextTracks | clients/go/resilientwatch.go:590-1019 | Every event keeps the node at the mirror but for lifecycle depths. |
| WatchRun.RunTracks | clients/go/resilientwatch.go:590-1019 | After every sequence of events the messages sent on the installed stream leave the node with the mirror, and of each lifecycle with the first depth asked for since the stream was installed or the transaction dropped, where the mirror has the last. |
| WatchRun.NodeIsMirrorIff | clients/go/resilientwatch.go:590-1019 | So the node holds exactly the mirror if and only if those first and last depths agree. |
| WatchRun.QuietRunIsExact | clients/go/resilientwatch.go:590-1019 | It does after every sequence in which no edit on a live stream asks for another depth of a held lifecycle. |
| WatchRun.FirstCloseWins | node/src/events/watch.rs:692-717 | After any run with an installed stream, a lifecycle asked for with one depth and then another leaves the node at the first and the mirror at the second; any reconnect that succeeds brings the node over. |
| WatchRun.CursorComesLast | clients/go/resilientwatch.go:953-1019 | An installed stream has carried the whole rendering, and a cursor last if at all. |
| DescriptorSlides.SlideFollows | clients/go/watchset.go:139-166 | A new window keeps all unanswered windows and the latest accepted one in the slot. |
| DescriptorSlides.RefuseFollows | clients/go/mirror.go:197-231 | A refusal takes out exactly the refused window. |
| DescriptorSlides.SlideLaw | clients/go/watchset.go:139-166 | Whatever is asked for, the window goes last and the oldest of more than nine goes; none is held twice. |
| DescriptorSlides.RefuseLaw | clients/go/mirror.go:197-231 | Whatever is refused, exactly that window goes, all go when the node dropped the descriptor, and a lone one stays. |
| DescriptorSlides.MirrorMatchesNode | clients/go/mirror.go:197-231 | With each window asked for once, each since the last removal with room, and refusals in order, once all is answered the mirror's window is the latest the node accepted, or none. |
| DescriptorSlides.MatchesExactly | clients/go/watchset.go:57-60 | For every run that asks for each window once and is answered in full: the mirror ends with the node's window under every verdict exactly when every window since the last removal was asked for with room. |
| DescriptorSlides.Loses | clients/go/watchset.go:157-160 | Otherwise, when the node accepts only the window that the first send without room pushes out, that window is gone from the mirror for good. |
| DescriptorSlides.AskedAgainEarly | clients/go/mirror.go:197-231 | A window asked for, removed and asked for again before the first refusal arrives: the mirror ends with none while the node holds it. |
| DescriptorSlides.AskedAgainLate | clients/go/mirror.go:197-231 | The current window asked for again and refused: the mirror goes back to the one before while the node keeps it. |
| DescriptorSlides.PastTheBound | clients/go/watchset.go:57-60 | Whatever the windows, when nine or more are unanswered and all are refused after one acceptance, the mirror ends with the last window, which the node refused. |
| TxDecode.LegacyDecodes | clients/go/tx.go:50-173 | A canonical transaction with an input decodes from its legacy form, whatever follows. |
| TxDecode.SegwitDecodes | clients/go/tx.go:50-173 | Its BIP 144 form with any witnesses decodes to the same transaction. |
| TxDecode.PreimageDecodes | clients/go/tx.go:88-171 | Whatever is accepted, the legacy bytes that are hashed decode to the same transaction. |
| TxDecode.InputFields | clients/go/tx.go:95-118 | At which byte each field of an input is. |
| TxDecode.OutputFields | clients/go/tx.go:130-143 | At which byte each field of an output is. |
| TxDecode.LegacyFields | clients/go/tx.go:50-173 | Version, body and lock time of the legacy form. |
| TxDecode.SegwitFields | clients/go/tx.go:50-173 | Version, marker and flag, body, witnesses and lock time of the BIP 144 form. |
| TxDecode.BodyFields | clients/go/tx.go:81-143 | Counts, inputs and outputs, in that order. |
| TxDecode.MarkerRule | clients/go/tx.go:58-80 | A zero input count must be followed by a flag of one and a count that is not zero. |
| TxDecode.DecodeForms | clients/go/tx.go:50-173 | Both forms of a transaction come back as its outpoints and outputs in order, under one txid, whatever the witnesses. |
| TxDecode.GuardIsSound | clients/go/tx.go:273-281 | A count the guard refuses could not have been read from the bytes left. |
| TxDecode.ItemSizes | clients/go/tx.go:81-153 | Inputs take at least 41 bytes, outputs 9, witness items 1. |
| TxDecode.ByteReader.CompactSizeAt | clients/go/tx.go:225-246 | Reads a compact size of any form, or reports a short read, within bounds. |
| TxDecode.ByteReader.VarBytes | clients/go/tx.go:251-264 | Reads the length and that many bytes, or reports a short read. |
| TxDecode.ByteReader.CanHold | clients/go/tx.go:273-281 | The division test, with no product that could wrap. |
| TxDecode.DecodeTx | clients/go/tx.go:50-173 | For every byte string the guarded, looping decoder returns the unguarded decoding: outpoint i of input i, the outputs, and the txid hashed from the canonical legacy form; no read is out of bounds. |
| Merkle.HeightIsLog | electrum-proto/src/merkle.rs:103-108 | The height is the base-2 logarithm of the number of leaves, rounded up. |
| Merkle.RootIsTop | electrum-proto/src/merkle.rs:113-137 | Folding levels gives the top node of the tree defined by position. |
| Merkle.RootOfHalves | electrum-proto/src/merkle.rs:113-137 | The root is the hash of the left subtree of 2^k leaves and the right one with the rest, lifted to that height by pairing with itself. |
| Merkle.BranchRebuilds | electrum-proto/src/merkle.rs:44-76 | Every leaf's branch rebuilds the root and is as long as the tree is high. |
| Merkle.BranchIsSound | electrum-proto/src/merkle.rs:141-157 | A leaf and branch of that length which rebuild the root are the real ones exactly when the pair hash takes no two different pairs, where the two paths meet, to the same node. |
| Merkle.MerkleRoot | electrum-proto/src/merkle.rs:113-137 | The loop over levels yields the root, and none for no leaves. |
| Merkle.CreateProof | electrum-proto/src/merkle.rs:44-76 | The loop that rebuilds levels collects the branch. |
| Merkle.ComputeMerkleBranch | electrum-proto/src/merkle.rs:103-108 | A position out of range gives the empty branch. |
| Merkle.RootFromBranch | electrum-proto/src/merkle.rs:141-157 | The loop folds the branch from the leaf. |
| Framing.AbsorbMeaning | electrum-proto/src/rpc.rs:48-83 | A found line is the bytes up to the stream's next newline and nothing else is gone; a read that ends early has kept every byte. |
| Framing.RefusedIff | electrum-proto/src/rpc.rs:63-76 | A read is refused exactly when some whole chunks without a newline bring the line past the cap. |
| Framing.RefusedIsLong | electrum-proto/src/rpc.rs:63-76 | A line of at most cap bytes before its newline is never refused. |
| Framing.CarriageReturnCountsTowardsCap | electrum-proto/src/rpc.rs:63-81 | For every cap, a line of exactly cap bytes with CR and newline is refused when the newline is in a later chunk and accepted when it is in the same one. |
| Framing.BufferBounded | electrum-proto/src/rpc.rs:53-77 | The buffer holds at most the cap and one chunk, and at most the cap when no line is complete. |
| Framing.SessionSplits | electrum-proto/src/server.rs:464-480 | However chunked, the lines are the newline split with one CR removed, all of it when the stream ends; a stream of valid lines within the cap is read to its end. |
| Framing.SentLinesArrive | electrum-proto/src/server.rs:464-480 | Every list of valid lines within the cap, sent with newlines or CR and newlines, is read back as it was, however chunked. |
| Framing.Connection.ReadLineBounded | electrum-proto/src/rpc.rs:48-83 | A dropped read changes nothing about what the next read returns; a finished one returns the line, the refusal or the end, and leaves the rest. |
| Framing.Connection.Serve | electrum-proto/src/server.rs:464-480 | For every pattern of dropped reads the loop returns the same lines and the same end. |

## Left out

- Hash functions, curve arithmetic, low-S normalisation and the legacy and BIP 143 signature hashes are function values: nothing is proved about them.
- Engine.EvalScript: takes stacks whose lengths fit a signed 64-bit size, a start weight that is not negative, and tapscripts below 2^32 bytes, as a transaction gives them; a longer script would overflow the condition stack's 32-bit position.
- Verifier.VerifyScriptMethod: takes a witness that came from a transaction: items below 2^32 bytes, and a serialized size that with 50 added fits a signed 64-bit size.
- check_lock_time and check_sequence are part of the checker's function values, as is the transaction they read; verify_transaction's flag and count errors and its first-failing index would only add easy members.
- Flag bits that no code path reads have no member in the flag set.
- Resilience.AtLeastOnce: assumes LagAutoResume, a server that does not clamp its replay, and lag notices that name at most the position delivered; the heights behind a replay gap are not modelled, the gap notice is.
- Resilience.ResilientSubscription.Next: one caller goroutine at a time, and the pump's steps fall before or after the call; steps in between are covered by StepKeeps, not by this contract. The generation number is constant in this type and is dropped.
- Resilience.StepKeeps: the pump's loop appears as its steps between waits, not as a loop.
- Backoff, retry limits, wall-clock timers, gRPC, TLS, file writes and JSON are not modelled; a failed attempt is a step that opens no stream.
- WatchRun.RunTracks: no loader, no Reload, and sends that succeed or report the stream closed; quotas, rate limits and the node's cap on transaction-depth pairs, which make it refuse a message, are not modelled, nor is the resume cursor beyond its message.
- DescriptorSlides.MirrorMatchesNode: takes runs that ask for each window once, and AskedAgainEarly and AskedAgainLate show why; which repetitions do no harm is not said. Rate-limited refusals, which are retried, are excluded.
- Mirror.EditFollows: the node also clears the status category for a token without rpc:read (events/src/catauth.rs:44-56); tokens are not modelled.
- Silent-payment targets carry their identity; deriving it from the scan key is curve arithmetic.
- Framing.Connection.ReadLineBounded: I/O errors of the underlying reader are not modelled; UTF-8 validity is a function value.
- TxDecode.DecodeTx: the text of decoding errors is not modelled.
- SetWatchSet snapshots, diffs against a target set, the loader, and the retry budget of refused adds.
- ResilientWatch re-anchoring, the esplora handlers, the Electrum dispatch, the server's accept loops, authentication, configuration and the block analyzer.
