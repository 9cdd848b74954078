/** Values shared by the script engine: bytes, flags, errors, execution data, and the
    functions supplied from outside (hashes, curve checks, the signature checker). */
module ScriptTypes {
  type Byte = b: int | 0 <= b < 256
  type U32 = n: int | 0 <= n < 0x1_0000_0000
  type U64 = n: int | 0 <= n < 0x1_0000_0000_0000_0000
  type Int32 = v: int | -0x8000_0000 <= v < 0x8000_0000
  type Int64 = v: int | -0x8000_0000_0000_0000 <= v < 0x8000_0000_0000_0000
  type Bytes = seq<Byte>
  type Hash20 = h: Bytes | |h| == 20 witness seq(20, _ => 0)
  type Hash32 = h: Bytes | |h| == 32 witness seq(32, _ => 0)

  /** An output of an earlier transaction. */
  datatype OutPoint = OutPoint(txid: Hash32, vout: U32)

  /** The interpreter's stack; the last item is the top. */
  type Stack = seq<Bytes>

  const MAX_SCRIPT_ELEMENT_SIZE := 520
  const MAX_OPS_PER_SCRIPT := 201
  const MAX_PUBKEYS_PER_MULTISIG := 20
  const MAX_SCRIPT_SIZE := 10000
  const MAX_STACK_SIZE := 1000
  const VALIDATION_WEIGHT_PER_SIGOP_PASSED := 50
  const VALIDATION_WEIGHT_OFFSET := 50

  predicate Within(max: nat, items: Stack) {
    forall i :: 0 <= i < |items| ==> |items[i]| <= max
  }

  /** No item is larger than an element may be. */
  predicate Fits(items: Stack) { Within(MAX_SCRIPT_ELEMENT_SIZE, items) }

  datatype Option<+T> = None | Some(value: T)

  datatype SigVersion = Base | WitnessV0 | Taproot | Tapscript

  /** One constructor per defined flag bit: the 21 of Bitcoin Core and satd's own. */
  datatype Flag =
    | VerifyP2sh | VerifyStrictEnc | VerifyDerSig | VerifyLowS | VerifyNullDummy
    | VerifySigPushOnly | VerifyMinimalData | VerifyDiscourageUpgradableNops
    | VerifyCleanStack | VerifyCheckLockTimeVerify | VerifyCheckSequenceVerify
    | VerifyWitness | VerifyDiscourageUpgradableWitnessProgram | VerifyMinimalIf
    | VerifyNullFail | VerifyWitnessPubkeyType | VerifyConstScriptCode | VerifyTaproot
    | VerifyDiscourageUpgradableTaprootVersion | VerifyDiscourageOpSuccess
    | VerifyDiscourageUpgradablePubkeyType | VerifyMinimalIfBase

  type Flags = set<Flag>

  datatype ScriptError =
    | EvalFalse | OpReturn | ScriptNumError
    | ScriptSize | PushSize | OpCount | StackSize | SigCount | PubkeyCount
    | Verify | EqualVerify | CheckMultiSigVerify | CheckSigVerify | NumEqualVerify
    | BadOpcode | DisabledOpcode | InvalidStackOperation | InvalidAltstackOperation
    | UnbalancedConditional
    | NegativeLocktime | UnsatisfiedLocktime
    | SigHashtype | SigDer | MinimalData | SigPushOnly | SigHighS | SigNullDummy
    | PubkeyType | CleanStack | MinimalIf | SigNullFail
    | DiscourageUpgradableNops | DiscourageUpgradableWitnessProgram
    | DiscourageUpgradableTaprootVersion | DiscourageOpSuccess
    | DiscourageUpgradablePubkeyType
    | WitnessProgramWrongLength | WitnessProgramWitnessEmpty | WitnessProgramMismatch
    | WitnessMalleated | WitnessMalleatedP2sh | WitnessUnexpected | WitnessPubkeyType
    | SchnorrSigSize | SchnorrSigHashtype | SchnorrSig | TaprootWrongControlSize
    | TapscriptValidationWeight | TapscriptCheckMultiSig | TapscriptMinimalIf
    | TapscriptEmptyPubkey
    | OpCodeSeparator | SigFindAndDelete

  datatype Result<+T> = Ok(value: T) | Err(error: ScriptError) {
    predicate IsFailure() { Err? }

    function PropagateFailure<U>(): Result<U>
      requires Err?
    {
      Err(error)
    }

    function Extract(): T
      requires Ok?
    {
      value
    }
  }

  datatype Unit = Unit

  lemma OkIsUnit(r: Result<Unit>)
    ensures r.Ok? ==> r == Ok(Unit)
  {
    match r
    case Err(_) =>
    case Ok(u) => match u case Unit =>
  }

  /** `Ok` when the condition holds, the given error otherwise. */
  function Check(condition: bool, error: ScriptError): Result<Unit> {
    if condition then Ok(Unit) else Err(error)
  }

  datatype ExecData = ExecData(
    tapleafHashInit: bool, tapleafHash: Hash32,
    codeSeparatorPosInit: bool, codeSeparatorPos: nat,
    annexInit: bool, annexPresent: bool, annexHash: Hash32,
    weightInit: bool, weightLeft: int)

  const ZERO_HASH: Hash32 :=
    [0, 0, 0, 0, 0, 0, 0, 0, 0, 0, 0, 0, 0, 0, 0, 0, 0, 0, 0, 0, 0, 0, 0, 0, 0, 0, 0, 0, 0, 0, 0, 0]

  const FRESH_EXEC_DATA :=
    ExecData(false, ZERO_HASH, false, 0xFFFF_FFFF, false, false, ZERO_HASH, false, 0)

  /** The signature checker of the transaction input being verified. */
  datatype Checker = Checker(
    ecdsa: (Bytes, Bytes, Bytes, SigVersion) -> bool,
    schnorr: (Bytes, Bytes, SigVersion, ExecData) -> Result<bool>,
    lockTime: int -> bool,
    sequence: int -> bool)

  /** Hash and curve functions of the libraries the engine links. `lowS` is the verdict of
      the low-S test on a signature that already passed the DER test, and `tweaks` says
      whether the internal key tweaked by the merkle root is the output key of that parity. */
  datatype Crypto = Crypto(
    ripemd160: Bytes -> Hash20,
    sha1: Bytes -> Hash20,
    sha256: Bytes -> Hash32,
    lowS: Bytes -> Result<Unit>,
    tweaks: (Bytes, Bytes, Hash32, bool) -> bool)

  /** Everything an evaluation reads and never changes. */
  datatype Env = Env(flags: Flags, checker: Checker, crypto: Crypto, sv: SigVersion)

  /** The checker's own assertions on its arguments are the precondition here. */
  function CheckSchnorr(env: Env, sig: Bytes, pubkey: Bytes, sv: SigVersion, ed: ExecData): Result<bool>
    requires |pubkey| == 32
    requires sv == Taproot || sv == Tapscript
  {
    env.checker.schnorr(sig, pubkey, sv, ed)
  }

  lemma Assoc<T>(a: seq<T>, b: seq<T>, c: seq<T>)
    ensures (a + b) + c == a + (b + c)
  {
  }

  function Last<T>(s: seq<T>): T
    requires s != []
  {
    s[|s| - 1]
  }

  function Pop<T>(s: seq<T>): seq<T>
    requires s != []
  {
    s[..|s| - 1]
  }
}
