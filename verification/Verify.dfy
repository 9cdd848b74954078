/** verify_script and the witness programs: scriptSig, scriptPubKey, P2SH redeem script and
    witness chained over the machine. */
module VerifySpec {
  import opened ScriptTypes
  import opened ScriptNum
  import opened Grammar
  import opened Encoding
  import opened Machine
  import opened Wire
  import opened Order

  // ---- Script forms --------------------------------------------------------------------

  predicate IsP2sh(script: Bytes) {
    |script| == 23 && script[0] == 0xa9 && script[1] == 0x14 && script[22] == 0x87
  }

  datatype Program = Program(version: Byte, program: Bytes)

  function WitnessProgram(script: Bytes): (r: Option<Program>)
    ensures r.Some? ==> 2 <= |r.value.program| <= 40
  {
    if |script| < 4 || |script| > 42 then None
    else if script[0] != 0 && !(0x51 <= script[0] <= 0x60) then None
    else if script[1] < 2 || script[1] > 40 || |script| != 2 + script[1] then None
    else Some(Program(if script[0] == 0 then 0 else script[0] - 0x50, script[2..]))
  }

  // ---- Taproot commitments -------------------------------------------------------------

  function TaggedHash(c: Crypto, tag: Bytes, msg: Bytes): Hash32 {
    c.sha256(c.sha256(tag) + c.sha256(tag) + msg)
  }

  const TAP_LEAF: Bytes := [0x54, 0x61, 0x70, 0x4c, 0x65, 0x61, 0x66]
  const TAP_BRANCH: Bytes := [0x54, 0x61, 0x70, 0x42, 0x72, 0x61, 0x6e, 0x63, 0x68]

  function TapleafHash(c: Crypto, leafVersion: Byte, script: Bytes): Hash32 {
    TaggedHash(c, TAP_LEAF, [leafVersion] + CompactSize(|script|) + script)
  }

  function TapBranchHash(c: Crypto, a: Hash32, b: Hash32): Hash32 {
    TaggedHash(c, TAP_BRANCH, if LexLess(a, b) then a + b else b + a)
  }

  const CONTROL_BASE := 33
  const CONTROL_NODE := 32
  const CONTROL_MAX := 33 + 32 * 128

  predicate ControlSize(control: Bytes) {
    CONTROL_BASE <= |control| <= CONTROL_MAX && (|control| - CONTROL_BASE) % CONTROL_NODE == 0
  }

  /** The root over the leaf and the path nodes, deepest first. */
  function TaprootRoot(c: Crypto, path: Bytes, leaf: Hash32): Hash32
    requires |path| % CONTROL_NODE == 0
    decreases |path|
  {
    if path == [] then leaf
    else TaprootRoot(c, path[CONTROL_NODE..], TapBranchHash(c, leaf, path[..CONTROL_NODE]))
  }

  predicate TaprootCommitment(c: Crypto, control: Bytes, program: Bytes, leaf: Hash32)
    requires ControlSize(control)
  {
    c.tweaks(control[1..33], program, TaprootRoot(c, control[33..], leaf), control[0] % 2 == 1)
  }

  function SerializedSize(wit: Stack): nat {
    if wit == [] then 0
    else |CompactSize(|Last(wit)|)| + |Last(wit)| + SerializedSize(Pop(wit))
  }

  // ---- Witness scripts and programs ----------------------------------------------------

  datatype Evaluated = Evaluated(stack: Stack, exec: ExecData)

  function EvalResult(env: Env, script: Bytes, stack: Stack, ed: ExecData): Result<Evaluated>
    requires env.sv != Taproot && (env.sv == Tapscript ==> ed.weightInit)
  {
    match Eval(env, script, stack, ed)
    case Halt(e, _) => Err(e)
    case Next(st) => Ok(Evaluated(st.stack, st.exec))
  }

  function ExecuteWitness(env: Env, stack: Stack, script: Bytes, ed: ExecData): Result<Unit>
    requires env.sv == WitnessV0 || (env.sv == Tapscript && ed.weightInit)
  {
    if env.sv == Tapscript && HasOpSuccess(Instrs(script, 0)) then
      Check(VerifyDiscourageOpSuccess !in env.flags, DiscourageOpSuccess)
    else if env.sv == Tapscript && |stack| > MAX_STACK_SIZE then Err(StackSize)
    else if !Fits(stack) then Err(PushSize)
    else
      var end :- EvalResult(env, script, stack, ed);
      if |end.stack| != 1 then Err(CleanStack)
      else Check(CastToBool(end.stack[0]), EvalFalse)
  }

  /** The script a P2WPKH program stands for. */
  function KeyHashScript(program: Bytes): Bytes {
    [0x76, 0xa9, 0x14] + program + [0x88, 0xac]
  }

  function VerifyV0(env: Env, wit: Stack, program: Bytes): Result<Unit> {
    var e := env.(sv := WitnessV0);
    if |program| == 32 then
      if wit == [] then Err(WitnessProgramWitnessEmpty)
      else if env.crypto.sha256(Last(wit)) != program then Err(WitnessProgramMismatch)
      else ExecuteWitness(e, Pop(wit), Last(wit), FRESH_EXEC_DATA)
    else if |program| == 20 then
      if |wit| != 2 then Err(WitnessProgramMismatch)
      else ExecuteWitness(e, wit, KeyHashScript(program), FRESH_EXEC_DATA)
    else Err(WitnessProgramWrongLength)
  }

  predicate HasAnnex(wit: Stack) {
    |wit| >= 2 && Last(wit) != [] && Last(wit)[0] == 0x50
  }

  function AnnexData(c: Crypto, wit: Stack): ExecData {
    if HasAnnex(wit) then
      FRESH_EXEC_DATA.(annexInit := true, annexPresent := true,
                       annexHash := c.sha256(CompactSize(|Last(wit)|) + Last(wit)))
    else FRESH_EXEC_DATA.(annexInit := true, annexPresent := false)
  }

  function VerifyTaprootSpend(env: Env, wit: Stack, program: Bytes): Result<Unit>
    requires |program| == 32
  {
    if VerifyTaproot !in env.flags then Ok(Unit)
    else if wit == [] then Err(WitnessProgramWitnessEmpty)
    else
      var ed := AnnexData(env.crypto, wit);
      var stack := if HasAnnex(wit) then Pop(wit) else wit;
      if |stack| == 1 then
        var ok :- CheckSchnorr(env, stack[0], program, Taproot, ed);
        Check(ok, SchnorrSig)
      else
        var control, script, args := Last(stack), Last(Pop(stack)), Pop(Pop(stack));
        if !ControlSize(control) then Err(TaprootWrongControlSize)
        else
          var leafVersion: Byte := control[0] - control[0] % 2;
          var leaf := TapleafHash(env.crypto, leafVersion, script);
          if !TaprootCommitment(env.crypto, control, program, leaf) then Err(WitnessProgramMismatch)
          else if leafVersion == 0xc0 then
            var weight := |CompactSize(|wit|)| + SerializedSize(wit) + VALIDATION_WEIGHT_OFFSET;
            ExecuteWitness(env.(sv := Tapscript), args, script,
                           ed.(tapleafHash := leaf, tapleafHashInit := true, weightLeft := weight, weightInit := true))
          else Check(VerifyDiscourageUpgradableTaprootVersion !in env.flags, DiscourageUpgradableTaprootVersion)
  }

  function VerifyProgram(env: Env, wit: Stack, p: Program, isP2sh: bool): Result<Unit> {
    if p.version == 0 then VerifyV0(env, wit, p.program)
    else if p.version == 1 && |p.program| == 32 && !isP2sh then VerifyTaprootSpend(env, wit, p.program)
    else if !isP2sh && p.version == 1 && p.program == [0x4e, 0x73] then Ok(Unit)
    else Check(VerifyDiscourageUpgradableWitnessProgram !in env.flags, DiscourageUpgradableWitnessProgram)
  }

  // ---- The whole verification ----------------------------------------------------------

  function TopTrue(stack: Stack): (r: Result<Unit>)
    ensures r.Ok? ==> stack != []
  {
    Check(stack != [] && CastToBool(Last(stack)), EvalFalse)
  }

  datatype Spent = Spent(hadWitness: bool, stack: Stack)

  /** If the script is a witness program, verify it and cut the stack to one item; the flag
      says whether there was one. `malleated` is the complaint about the scriptSig, if any. */
  function WitnessPart(env: Env, script: Bytes, wit: Stack, isP2sh: bool,
                       malleated: Option<ScriptError>, stack: Stack): Result<Spent>
    requires stack != []
  {
    if VerifyWitness in env.flags && WitnessProgram(script).Some? then
      if malleated.Some? then Err(malleated.value)
      else
        var _ :- VerifyProgram(env, wit, WitnessProgram(script).value, isP2sh);
        Ok(Spent(true, stack[..1]))
    else Ok(Spent(false, stack))
  }

  function BareSpend(env: Env, scriptSig: Bytes, scriptPubKey: Bytes, wit: Stack, stack: Stack): Result<Spent>
    requires stack != []
  {
    WitnessPart(env, scriptPubKey, wit, false, if scriptSig == [] then None else Some(WitnessMalleated), stack)
  }

  function RedeemSpend(env: Env, scriptSig: Bytes, wit: Stack, saved: Stack, ed: ExecData): Result<Spent>
    requires saved != [] && env.sv == Base
  {
    if !PushOnly(scriptSig, 0) then Err(SigPushOnly)
    else
      var redeem := Last(saved);
      var end :- EvalResult(env, redeem, Pop(saved), ed);
      var _ :- TopTrue(end.stack);
      var malleated := WitnessProgram(redeem).Some? && scriptSig != Encode(DirectPush(redeem));
      WitnessPart(env, redeem, wit, true, if malleated then Some(WitnessMalleatedP2sh) else None, end.stack)
  }

  /** Evaluating a P2SH script needs an item: the assertion before the redeem script. */
  lemma P2shNeedsItem(env: Env, script: Bytes, start: Evaluated)
    requires env.sv == Base
    ensures IsP2sh(script) && EvalResult(env, script, start.stack, start.exec).Ok? ==> start.stack != []
  {
    if IsP2sh(script) && start.stack == [] {
      var st := Initial([], start.exec);
      assert script[1..1] == [];
      assert ReadAt(script, 0) == Some(Token(Instr(0xa9, []), 1));
      assert Step(env, script, Token(Instr(0xa9, []), 1), st).Halt?;
    }
  }

  /** The rules on what is left once the last script has run. */
  function Settle(flags: Flags, wit: Stack, end: Spent): Result<Unit> {
    if VerifyCleanStack in flags && |end.stack| != 1 then Err(CleanStack)
    else Check(!(VerifyWitness in flags && !end.hadWitness && wit != []), WitnessUnexpected)
  }

  /** The redeem script of a P2SH output; any other output is done after its own script. */
  function P2shSpend(env: Env, scriptSig: Bytes, scriptPubKey: Bytes, wit: Stack, saved: Stack,
                     ed: ExecData, bare: Spent): Result<Spent>
    requires env.sv == Base
  {
    if VerifyP2sh !in env.flags || !IsP2sh(scriptPubKey) then Ok(bare)
    else if saved == [] then Err(EvalFalse)   // never the case: P2shNeedsItem
    else
      var redeemed :- RedeemSpend(env, scriptSig, wit, saved, ed);
      Ok(Spent(bare.hadWitness || redeemed.hadWitness, redeemed.stack))
  }

  /** From the stack the scriptSig left to the end of the spend. */
  function Spend(env: Env, scriptSig: Bytes, scriptPubKey: Bytes, wit: Stack, saved: Evaluated): Result<Spent>
    requires env.sv == Base
  {
    match EvalResult(env, scriptPubKey, saved.stack, saved.exec)
    case Err(e) => Err(e)
    case Ok(end) =>
      if TopTrue(end.stack).Err? then Err(EvalFalse)
      else
        var bare := BareSpend(env, scriptSig, scriptPubKey, wit, end.stack);
        if bare.Err? then bare
        else P2shSpend(env, scriptSig, scriptPubKey, wit, saved.stack, end.exec, bare.value)
  }

  function VerifyScript(env: Env, scriptSig: Bytes, scriptPubKey: Bytes, wit: Stack): Result<Unit>
    requires env.sv == Base
  {
    if VerifySigPushOnly in env.flags && !PushOnly(scriptSig, 0) then Err(SigPushOnly)
    else
      match EvalResult(env, scriptSig, [], FRESH_EXEC_DATA)
      case Err(e) => Err(e)
      case Ok(saved) =>
        var end := Spend(env, scriptSig, scriptPubKey, wit, saved);
        if end.Err? then Err(end.error) else Settle(env.flags, wit, end.value)
  }
}
