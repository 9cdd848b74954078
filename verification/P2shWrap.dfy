/** Wrapping a version 0 witness program in P2SH does not change what spends it. */
module P2shWrap {
  import opened ScriptTypes
  import opened ScriptNum
  import opened Condition
  import opened Grammar
  import opened Encoding
  import opened Signatures
  import opened Machine
  import opened VerifySpec

  // ---- Evaluating a few fixed forms, under every flag set ------------------------------

  lemma StepPush(env: Env, script: Bytes, t: Token, st: State)
    requires env.sv != Taproot && Budgeted(env, st) && st.codeStart <= |script|
    requires t.instr.opcode <= OP_PUSHDATA4 && |t.instr.data| <= MAX_SCRIPT_ELEMENT_SIZE && st.conds == []
    requires MinimalPush(t.instr.data, t.instr.opcode) || VerifyMinimalData !in env.flags
    requires |st.stack| + |st.alt| < MAX_STACK_SIZE
    ensures Step(env, script, t, st) == Next(st.(stack := st.stack + [t.instr.data], pos := st.pos + 1))
  {
    hide MinimalPush, ExecOp;
    assert AllTrue(st.conds);
  }

  /** An executed opcode of the stack-only kind, in a script that counts operations. */
  lemma StepData(env: Env, script: Bytes, t: Token, st: State)
    requires CountsOps(env) && st.codeStart <= |script| && st.conds == []
    requires t.instr.data == [] && st.ops < MAX_OPS_PER_SCRIPT
    requires IsHash(t.instr.opcode) || t.instr.opcode == 0x87
    requires DataOp(env, t.instr.opcode, st.stack).Ok?
    requires |DataOp(env, t.instr.opcode, st.stack).value| + |st.alt| <= MAX_STACK_SIZE
    ensures Step(env, script, t, st) ==
            Next(st.(stack := DataOp(env, t.instr.opcode, st.stack).value, pos := st.pos + 1, ops := st.ops + 1))
  {
    hide DataOp;
    assert AllTrue(st.conds);
  }

  function After(ed: ExecData): ExecData {
    ed.(codeSeparatorPos := 0xFFFF_FFFF, codeSeparatorPosInit := true)
  }

  lemma EvalNothing(env: Env, stack: Stack, ed: ExecData)
    requires env.sv == Base
    ensures EvalResult(env, [], stack, ed) == Ok(Evaluated(stack, After(ed)))
  {
  }

  lemma EvalSinglePush(env: Env, data: Bytes, ed: ExecData)
    requires env.sv == Base && 2 <= |data| <= 75
    ensures EvalResult(env, Encode(DirectPush(data)), [], ed) == Ok(Evaluated([data], After(ed)))
    ensures PushOnly(Encode(DirectPush(data)), 0)
  {
    hide Step;
    var i, script := DirectPush(data), Encode(DirectPush(data));
    var t := Token(i, |script|);
    ReadEncode([], i, []);
    assert [] + script + [] == script;
    var st := Initial([], ed);
    StepPush(env, script, t, st);
    var st1 := st.(stack := [data], pos := 1);
    assert st.stack + [data] == [data];
    assert Run(env, script, 0, st) == Run(env, script, |script|, st1);
    PushOnlyStep(script, 0);
    PushOnlyStep(script, |script|);
  }

  /** A witness program script: version push, program push. */
  function ProgramScript(version: Byte, program: Bytes): Bytes
    requires 2 <= |program| <= 40 && (version == 0 || 0x51 <= version <= 0x60)
  {
    [version, |program|] + program
  }

  lemma ProgramTokens(version: Byte, program: Bytes)
    requires 2 <= |program| <= 40 && (version == 0 || 0x51 <= version <= 0x60)
    ensures var s := ProgramScript(version, program);
            && ReadAt(s, 0) == Some(Token(Instr(version, []), 1))
            && ReadAt(s, 1) == Some(Token(Instr(|program|, program), |s|))
            && WitnessProgram(s) == Some(Program(if version == 0 then 0 else version - 0x50, program))
            && !IsP2sh(s) && PushOnly(s, 0)
  {
    var s := ProgramScript(version, program);
    assert s[1..1] == [] && s[2..] == program && s[2..|s|] == program;
    PushOnlyStep(s, 0);
    PushOnlyStep(s, 1);
    PushOnlyStep(s, |s|);
  }

  lemma EvalProgramV0(env: Env, program: Bytes, ed: ExecData)
    requires env.sv == Base && 2 <= |program| <= 40
    ensures EvalResult(env, ProgramScript(0, program), [], ed) == Ok(Evaluated([[], program], After(ed)))
  {
    hide Step;
    var s := ProgramScript(0, program);
    ProgramTokens(0, program);
    var st := Initial([], ed);
    StepPush(env, s, Token(Instr(0, []), 1), st);
    var st1 := st.(stack := [[]], pos := 1);
    assert st.stack + [[]] == [[]];
    assert Run(env, s, 0, st) == Run(env, s, 1, st1);
    StepPush(env, s, Token(Instr(|program|, program), |s|), st1);
    var st2 := st1.(stack := [[], program], pos := 2);
    assert st1.stack + [program] == [[], program];
    assert Run(env, s, 1, st1) == Run(env, s, |s|, st2);
  }

  function P2shScript(hash: Hash20): Bytes {
    [0xa9, 0x14] + hash + [0x87]
  }

  function Hash160(c: Crypto, data: Bytes): Hash20 { c.ripemd160(c.sha256(data)) }

  lemma P2shTokens(hash: Hash20)
    ensures var s := P2shScript(hash);
            && ReadAt(s, 0) == Some(Token(Instr(0xa9, []), 1))
            && ReadAt(s, 1) == Some(Token(Instr(0x14, hash), 22))
            && ReadAt(s, 22) == Some(Token(Instr(0x87, []), 23))
            && |s| == 23 && IsP2sh(s) && WitnessProgram(s) == None
  {
    var s := P2shScript(hash);
    assert s[1..1] == [] && s[2..22] == hash && s[23..23] == [];
    assert s[0] == 0xa9 && s[1] == 0x14 && s[22] == 0x87;
  }

  /** With the redeem script alone on the stack, a P2SH script compares its hash. */
  lemma EvalP2sh(env: Env, hash: Hash20, redeem: Bytes, ed: ExecData)
    requires env.sv == Base
    ensures EvalResult(env, P2shScript(hash), [redeem], ed) ==
            Ok(Evaluated([BoolItem(Hash160(env.crypto, redeem) == hash)], After(ed)))
  {
    hide Step;
    var s := P2shScript(hash);
    P2shTokens(hash);
    var st := Initial([redeem], ed);
    var h := Hash160(env.crypto, redeem);
    assert DataOp(env, 0xa9, st.stack) == Ok([h]) by { assert Pop([redeem]) + [h] == [h]; }
    StepData(env, s, Token(Instr(0xa9, []), 1), st);
    var st1 := st.(stack := [h], pos := 1, ops := 1);
    assert Run(env, s, 0, st) == Run(env, s, 1, st1);
    StepPush(env, s, Token(Instr(0x14, hash), 22), st1);
    var st2 := st1.(stack := [h, hash], pos := 2);
    assert st1.stack + [hash] == [h, hash];
    assert Run(env, s, 1, st1) == Run(env, s, 22, st2);
    var r := [BoolItem(h == hash)];
    assert DataOp(env, 0x87, st2.stack) == Ok(r) by { assert st2.stack[..0] + r == r; }
    StepData(env, s, Token(Instr(0x87, []), 23), st2);
    assert Run(env, s, 22, st2) == Run(env, s, 23, st2.(stack := r, pos := 3, ops := 2));
  }

  // ---- The theorem ---------------------------------------------------------------------

  /** Both spends come down to this. */
  function SpendV0(env: Env, wit: Stack, program: Bytes): Result<Unit> {
    if CastToBool(program) then VerifyV0(env, wit, program) else Err(EvalFalse)
  }

  lemma WitnessPartV0(env: Env, program: Bytes, wit: Stack, isP2sh: bool)
    requires VerifyWitness in env.flags && 2 <= |program| <= 40
    ensures WitnessPart(env, ProgramScript(0, program), wit, isP2sh, None, [[], program]) ==
            match VerifyV0(env, wit, program) { case Err(e) => Err(e) case Ok(_) => Ok(Spent(true, [[]])) }
  {
    hide VerifyV0;
    ProgramTokens(0, program);
    assert [[], program][..1] == [[]];
  }

  lemma BareV0(env: Env, program: Bytes, wit: Stack)
    requires env.sv == Base && VerifyWitness in env.flags && 2 <= |program| <= 40
    ensures VerifyScript(env, [], ProgramScript(0, program), wit) == SpendV0(env, wit, program)
  {
    hide EvalResult, VerifyV0, CastToBool, PushOnly, WitnessPart, ProgramScript;
    EvalNothing(env, [], FRESH_EXEC_DATA);
    EvalProgramV0(env, program, After(FRESH_EXEC_DATA));
    ProgramTokens(0, program);
    assert PushOnly([], 0) by { PushOnlyStep([], 0); }
    WitnessPartV0(env, program, wit, false);
    OkIsUnit(VerifyV0(env, wit, program));
  }

  lemma WrappedV0(env: Env, program: Bytes, wit: Stack)
    requires env.sv == Base && VerifyWitness in env.flags && VerifyP2sh in env.flags && 2 <= |program| <= 40
    ensures var redeem := ProgramScript(0, program);
            VerifyScript(env, Encode(DirectPush(redeem)), P2shScript(Hash160(env.crypto, redeem)), wit) ==
            SpendV0(env, wit, program)
  {
    hide EvalResult, VerifyV0, CastToBool, PushOnly, Encode, IsP2sh, WitnessProgram, P2shScript, ProgramScript;
    var redeem := ProgramScript(0, program);
    assert |redeem| == |program| + 2 by { RedeemSize(program); }
    var scriptSig, hash := Encode(DirectPush(redeem)), Hash160(env.crypto, redeem);
    var ed := After(FRESH_EXEC_DATA);
    EvalSinglePush(env, redeem, FRESH_EXEC_DATA);
    EvalP2sh(env, hash, redeem, ed);
    P2shTokens(hash);
    assert CastToBool(STACK_TRUE) by { TrueIsTrue(); }
    assert Pop([redeem]) == [] && Last([redeem]) == redeem;
    EvalProgramV0(env, program, ed);
    WitnessPartV0(env, program, wit, true);
    OkIsUnit(VerifyV0(env, wit, program));
    var end := [BoolItem(true)];
    assert BareSpend(env, scriptSig, P2shScript(hash), wit, end) == Ok(Spent(false, end));
    assert RedeemSpend(env, scriptSig, wit, [redeem], ed) ==
      if CastToBool(program) then WitnessPart(env, redeem, wit, true, None, [[], program]) else Err(EvalFalse);
  }

  lemma RedeemSize(program: Bytes)
    requires 2 <= |program| <= 40
    ensures |ProgramScript(0, program)| == |program| + 2
  {
  }

  lemma TrueIsTrue()
    ensures CastToBool(STACK_TRUE) && !CastToBool(STACK_FALSE)
  {
    assert STACK_TRUE[0] != 0;
  }

  /** With P2SH and WITNESS set, for every version 0 program and every witness, the bare
      spend and the P2SH-wrapped spend give the same verdict, error included. */
  lemma P2shWrappingPreserves(env: Env, program: Bytes, wit: Stack)
    requires env.sv == Base && VerifyWitness in env.flags && VerifyP2sh in env.flags && 2 <= |program| <= 40
    ensures var redeem := ProgramScript(0, program);
            VerifyScript(env, [], redeem, wit) ==
            VerifyScript(env, Encode(DirectPush(redeem)), P2shScript(Hash160(env.crypto, redeem)), wit)
  {
    BareV0(env, program, wit);
    WrappedV0(env, program, wit);
  }
}
