/** The script machine: what each opcode does to the state, and whole runs. This is the
    specification that the loop in `Engine` is proved to compute. */
module Machine {
  import opened ScriptTypes
  import opened ScriptNum
  import opened Grammar
  import opened Encoding
  import opened Signatures
  import opened Condition

  /** `conds` is the plain list behind the compressed condition stack. The last two fields
      count the ECDSA checks made and, in tapscript, the signatures charged for. */
  datatype State = State(
    stack: Stack, alt: Stack, conds: seq<bool>, ops: nat, codeStart: nat, pos: nat,
    exec: ExecData, ecdsa: nat, charged: nat)

  datatype Outcome = Next(st: State) | Halt(error: ScriptError, ecdsa: nat)

  // ---- Opcodes that only look at the stack ---------------------------------------------

  predicate IsDisabled(op: Byte) {
    0x7e <= op <= 0x81 || 0x83 <= op <= 0x86 || op == 0x8d || op == 0x8e || 0x95 <= op <= 0x99
  }

  /** Stack shuffles: how many items an opcode takes, and which of them (0 is the deepest)
      it leaves, in order. */
  datatype Effect = Effect(takes: nat, leaves: seq<nat>)

  function StackEffect(op: Byte): Option<Effect> {
    if op == 0x6d then Some(Effect(2, []))                       // 2DROP
    else if op == 0x6e then Some(Effect(2, [0, 1, 0, 1]))        // 2DUP
    else if op == 0x6f then Some(Effect(3, [0, 1, 2, 0, 1, 2]))  // 3DUP
    else if op == 0x70 then Some(Effect(4, [0, 1, 2, 3, 0, 1]))  // 2OVER
    else if op == 0x71 then Some(Effect(6, [2, 3, 4, 5, 0, 1]))  // 2ROT
    else if op == 0x72 then Some(Effect(4, [2, 3, 0, 1]))        // 2SWAP
    else if op == 0x75 then Some(Effect(1, []))                  // DROP
    else if op == 0x76 then Some(Effect(1, [0, 0]))              // DUP
    else if op == 0x77 then Some(Effect(2, [1]))                 // NIP
    else if op == 0x78 then Some(Effect(2, [0, 1, 0]))           // OVER
    else if op == 0x7b then Some(Effect(3, [1, 2, 0]))           // ROT
    else if op == 0x7c then Some(Effect(2, [1, 0]))              // SWAP
    else if op == 0x7d then Some(Effect(2, [1, 0, 1]))           // TUCK
    else None
  }

  predicate InRange(e: Effect) {
    forall k :: 0 <= k < |e.leaves| ==> e.leaves[k] < e.takes
  }

  function Rearrange(e: Effect, stack: Stack): (r: Result<Stack>)
    requires InRange(e)
  {
    if |stack| < e.takes then Err(InvalidStackOperation)
    else
      var base := |stack| - e.takes;
      Ok(stack[..base] + seq(|e.leaves|, k requires 0 <= k < |e.leaves| => stack[base + e.leaves[k]]))
  }

  lemma EffectsInRange(op: Byte)
    ensures StackEffect(op).Some? ==> InRange(StackEffect(op).value)
  {
    hide StackEffect, InRange;
    if op <= 0x72 { LongEffectsInRange(op); } else { ShortEffectsInRange(op); }
  }

  lemma LongEffectsInRange(op: Byte)
    requires op <= 0x72
    ensures StackEffect(op).Some? ==> InRange(StackEffect(op).value)
  {
  }

  lemma ShortEffectsInRange(op: Byte)
    requires op > 0x72
    ensures StackEffect(op).Some? ==> InRange(StackEffect(op).value)
  {
  }

  function PickRoll(env: Env, roll: bool, stack: Stack): Result<Stack> {
    if |stack| < 2 then Err(InvalidStackOperation)
    else
      var v :- Num(env, Last(stack));
      var n, s := GetInt(v), Pop(stack);
      if n < 0 || n >= |s| then Err(InvalidStackOperation)
      else
        var at := |s| - n - 1;
        Ok((if roll then s[..at] + s[at + 1..] else s) + [s[at]])
  }

  predicate IsUnary(op: Byte) { op == 0x8b || op == 0x8c || 0x8f <= op <= 0x92 }
  predicate IsBinary(op: Byte) { op == 0x93 || op == 0x94 || 0x9a <= op <= 0xa4 }

  function BoolNum(b: bool): int { if b then 1 else 0 }

  function UnaryValue(op: Byte, a: int): int
    requires IsUnary(op)
  {
    if op == 0x8b then a + 1
    else if op == 0x8c then a - 1
    else if op == 0x8f then -a
    else if op == 0x90 then Abs(a)
    else if op == 0x91 then BoolNum(a == 0)
    else BoolNum(a != 0)
  }

  function BinaryValue(op: Byte, a: int, b: int): int
    requires IsBinary(op)
  {
    if op == 0x93 then a + b
    else if op == 0x94 then a - b
    else if op == 0x9a then BoolNum(a != 0 && b != 0)
    else if op == 0x9b then BoolNum(a != 0 || b != 0)
    else if op == 0x9c || op == 0x9d then BoolNum(a == b)
    else if op == 0x9e then BoolNum(a != b)
    else if op == 0x9f then BoolNum(a < b)
    else if op == 0xa0 then BoolNum(a > b)
    else if op == 0xa1 then BoolNum(a <= b)
    else if op == 0xa2 then BoolNum(a >= b)
    else if op == 0xa3 then (if a < b then a else b)
    else (if a > b then a else b)
  }

  function NumericOp(env: Env, op: Byte, stack: Stack): Result<Stack>
    requires IsUnary(op) || IsBinary(op) || op == 0xa5
  {
    var n := |stack|;
    if IsUnary(op) then
      if n < 1 then Err(InvalidStackOperation)
      else
        var a :- Num(env, stack[n - 1]);
        Ok(stack[..n - 1] + [Serialize(UnaryValue(op, a))])
    else if IsBinary(op) then
      if n < 2 then Err(InvalidStackOperation)
      else
        var b :- Num(env, stack[n - 1]);
        var a :- Num(env, stack[n - 2]);
        if op == 0x9d then (if a == b then Ok(stack[..n - 2]) else Err(NumEqualVerify))
        else Ok(stack[..n - 2] + [Serialize(BinaryValue(op, a, b))])
    else
      if n < 3 then Err(InvalidStackOperation)
      else
        var hi :- Num(env, stack[n - 1]);
        var lo :- Num(env, stack[n - 2]);
        var x :- Num(env, stack[n - 3]);
        Ok(stack[..n - 3] + [BoolItem(lo <= x < hi)])
  }

  predicate IsHash(op: Byte) { 0xa6 <= op <= 0xaa }

  function HashValue(c: Crypto, op: Byte, data: Bytes): (h: Bytes)
    requires IsHash(op)
    ensures |h| == 20 || |h| == 32
  {
    if op == 0xa6 then c.ripemd160(data)
    else if op == 0xa7 then c.sha1(data)
    else if op == 0xa8 then c.sha256(data)
    else if op == 0xa9 then c.ripemd160(c.sha256(data))
    else c.sha256(c.sha256(data))
  }

  /** Bit 31 of the low 32 bits: the disable flag of BIP 112. */
  predicate SequenceDisabled(v: nat) { (v / 0x8000_0000) % 2 == 1 }

  function LockTimeOp(env: Env, stack: Stack): Result<Unit> {
    if VerifyCheckLockTimeVerify !in env.flags then Ok(Unit)
    else if stack == [] then Err(InvalidStackOperation)
    else
      var v :- FromBytes(Last(stack), VerifyMinimalData in env.flags, 5);
      if v < 0 then Err(NegativeLocktime)
      else Check(env.checker.lockTime(v), UnsatisfiedLocktime)
  }

  function SequenceOp(env: Env, stack: Stack): Result<Unit> {
    if VerifyCheckSequenceVerify !in env.flags then Ok(Unit)
    else if stack == [] then Err(InvalidStackOperation)
    else
      var v :- FromBytes(Last(stack), VerifyMinimalData in env.flags, 5);
      if v < 0 then Err(NegativeLocktime)
      else Check(SequenceDisabled(v) || env.checker.sequence(v), UnsatisfiedLocktime)
  }

  predicate IsSpareNop(op: Byte) { op == 0xb0 || 0xb3 <= op <= 0xb9 }

  /** Opcodes with a rule of their own that only read and write the main stack. */
  function PlainOp(env: Env, op: Byte, stack: Stack): Result<Stack> {
    if op == 0x4f || 0x51 <= op <= 0x60 then Ok(stack + [Serialize(op - 0x50)])
    else if op == 0x61 then Ok(stack)
    else if op == 0xb1 then
      var _ :- LockTimeOp(env, stack);
      Ok(stack)
    else if op == 0xb2 then
      var _ :- SequenceOp(env, stack);
      Ok(stack)
    else if IsSpareNop(op) then
      if VerifyDiscourageUpgradableNops in env.flags then Err(DiscourageUpgradableNops) else Ok(stack)
    else if op == 0x6a then Err(OpReturn)
    else if op == 0x74 then Ok(stack + [Serialize(|stack|)])
    else if op == 0x79 || op == 0x7a then PickRoll(env, op == 0x7a, stack)
    else if op == 0x87 || op == 0x88 then
      if |stack| < 2 then Err(InvalidStackOperation)
      else
        var equal, rest := stack[|stack| - 1] == stack[|stack| - 2], stack[..|stack| - 2];
        if op == 0x87 then Ok(rest + [BoolItem(equal)])
        else if equal then Ok(rest) else Err(EqualVerify)
    else if op == 0x69 || op == 0x73 || op == 0x82 then
      if stack == [] then Err(InvalidStackOperation)
      else if op == 0x69 then (if CastToBool(Last(stack)) then Ok(Pop(stack)) else Err(Verify))
      else if op == 0x73 then (if CastToBool(Last(stack)) then Ok(stack + [Last(stack)]) else Ok(stack))
      else Ok(stack + [Serialize(|Last(stack)|)])
    else Err(BadOpcode)
  }

  function DataOp(env: Env, op: Byte, stack: Stack): Result<Stack> {
    EffectsInRange(op);
    if StackEffect(op).Some? then Rearrange(StackEffect(op).value, stack)
    else if IsUnary(op) || IsBinary(op) || op == 0xa5 then NumericOp(env, op, stack)
    else if IsHash(op) then
      if stack == [] then Err(InvalidStackOperation)
      else Ok(Pop(stack) + [HashValue(env.crypto, op, Last(stack))])
    else PlainOp(env, op, stack)
  }

  // ---- Opcodes that touch the rest of the state ----------------------------------------

  predicate IsFlow(op: Byte) { 0x63 <= op <= 0x68 }

  /** The argument rule of OP_IF and OP_NOTIF. */
  function IfArgument(env: Env, v: Bytes): Result<Unit> {
    var clean := v == [] || v == [1];
    if env.sv == Tapscript && !clean then Err(TapscriptMinimalIf)
    else if ((env.sv == WitnessV0 && VerifyMinimalIf in env.flags) ||
             (env.sv == Base && VerifyMinimalIfBase in env.flags)) && !clean then Err(MinimalIf)
    else Ok(Unit)
  }

  function FlowOp(env: Env, op: Byte, st: State): Result<State>
    requires IsFlow(op)
  {
    if op == 0x63 || op == 0x64 then
      if !AllTrue(st.conds) then Ok(st.(conds := st.conds + [false]))
      else if st.stack == [] then Err(InvalidStackOperation)
      else
        var _ :- IfArgument(env, Last(st.stack));
        var value := CastToBool(Last(st.stack)) == (op == 0x63);
        Ok(st.(conds := st.conds + [value], stack := Pop(st.stack)))
    else if op == 0x67 then
      if st.conds == [] then Err(UnbalancedConditional) else Ok(st.(conds := Toggle(st.conds)))
    else if op == 0x68 then
      if st.conds == [] then Err(UnbalancedConditional) else Ok(st.(conds := Pop(st.conds)))
    else Err(BadOpcode)
  }

  function AltOp(op: Byte, st: State): Result<State>
    requires op == 0x6b || op == 0x6c
  {
    if op == 0x6b then
      if st.stack == [] then Err(InvalidStackOperation)
      else Ok(st.(stack := Pop(st.stack), alt := st.alt + [Last(st.stack)]))
    else if st.alt == [] then Err(InvalidAltstackOperation)
    else Ok(st.(stack := st.stack + [Last(st.alt)], alt := Pop(st.alt)))
  }

  predicate IsSig(op: Byte) { 0xac <= op <= 0xaf || op == 0xba }

  /** The weight assertion of tapscript, as a condition on the state. */
  predicate Budgeted(env: Env, st: State) { env.sv == Tapscript ==> st.exec.weightInit }

  function Finish(verify: bool, ok: bool, rest: Stack, error: ScriptError): Result<Stack> {
    if !verify then Ok(rest + [BoolItem(ok)]) else if ok then Ok(rest) else Err(error)
  }

  function CheckSigOp(env: Env, code: Bytes, verify: bool, st: State): Outcome
    requires env.sv != Taproot && Budgeted(env, st)
  {
    var n := |st.stack|;
    if n < 2 then Halt(InvalidStackOperation, st.ecdsa)
    else
      var pubkey, sig, rest := st.stack[n - 1], st.stack[n - 2], st.stack[..n - 2];
      if env.sv == Tapscript then
        match CheckSigSchnorr(env, st.exec, sig, pubkey)
        case Err(e) => Halt(e, st.ecdsa)
        case Ok((ok, ed)) =>
          var st' := st.(exec := ed, charged := st.charged + (if sig == [] then 0 else 1));
          (match Finish(verify, ok, rest, CheckSigVerify)
           case Err(e) => Halt(e, st.ecdsa)
           case Ok(s) => Next(st'.(stack := s)))
      else
        var c := CheckSigEcdsa(env, code, sig, pubkey);
        match c.result
        case Err(e) => Halt(e, st.ecdsa + c.checks)
        case Ok(ok) =>
          (match Finish(verify, ok, rest, CheckSigVerify)
           case Err(e) => Halt(e, st.ecdsa + c.checks)
           case Ok(s) => Next(st.(stack := s, ecdsa := st.ecdsa + c.checks)))
  }

  function CheckSigAddOp(env: Env, st: State): Outcome
    requires env.sv != Taproot && Budgeted(env, st)
  {
    var n := |st.stack|;
    if env.sv != Tapscript then Halt(BadOpcode, st.ecdsa)
    else if n < 3 then Halt(InvalidStackOperation, st.ecdsa)
    else
      var pubkey, sig, rest := st.stack[n - 1], st.stack[n - 3], st.stack[..n - 3];
      match Num(env, st.stack[n - 2])
      case Err(e) => Halt(e, st.ecdsa)
      case Ok(num) =>
        match CheckSigSchnorr(env, st.exec, sig, pubkey)
        case Err(e) => Halt(e, st.ecdsa)
        case Ok((ok, ed)) =>
          Next(st.(stack := rest + [Serialize(num + BoolNum(ok))], exec := ed,
                   charged := st.charged + (if sig == [] then 0 else 1)))
  }

  function MultiSigOp(env: Env, code: Bytes, verify: bool, st: State): Outcome
    requires env.sv != Taproot
  {
    if env.sv == Tapscript then Halt(TapscriptCheckMultiSig, st.ecdsa)
    else
      var c := CheckMultiSig(env, code, st.ops, st.stack);
      match c.result
      case Err(e) => Halt(e, st.ecdsa + c.checks)
      case Ok((ok, rest)) =>
        match Finish(verify, ok, rest, CheckMultiSigVerify)
        case Err(e) => Halt(e, st.ecdsa + c.checks)
        case Ok(s) => Next(st.(stack := s, ecdsa := st.ecdsa + c.checks, ops := MultiSigOps(env, st.ops, st.stack)))
  }

  function SigOp(env: Env, op: Byte, code: Bytes, st: State): Outcome
    requires IsSig(op) && env.sv != Taproot && Budgeted(env, st)
  {
    if op == 0xba then CheckSigAddOp(env, st)
    else if op == 0xac || op == 0xad then CheckSigOp(env, code, op == 0xad, st)
    else MultiSigOp(env, code, op == 0xaf, st)
  }

  function Lift(r: Result<State>, ecdsa: nat): Outcome {
    match r case Ok(st) => Next(st) case Err(e) => Halt(e, ecdsa)
  }

  function ExecOp(env: Env, script: Bytes, next: nat, op: Byte, st: State): Outcome
    requires env.sv != Taproot && Budgeted(env, st) && st.codeStart <= |script|
  {
    if IsFlow(op) then Lift(FlowOp(env, op, st), st.ecdsa)
    else if op == 0x6b || op == 0x6c then Lift(AltOp(op, st), st.ecdsa)
    else if op == OP_CODESEPARATOR then
      Next(st.(codeStart := next, exec := st.exec.(codeSeparatorPos := st.pos)))
    else if IsSig(op) then SigOp(env, op, script[st.codeStart..], st)
    else
      match DataOp(env, op, st.stack)
      case Err(e) => Halt(e, st.ecdsa)
      case Ok(s) => Next(st.(stack := s))
  }

  // ---- One instruction -----------------------------------------------------------------

  predicate CountsOps(env: Env) { env.sv == Base || env.sv == WitnessV0 }

  /** The checks that apply to every instruction, executed or not. */
  function Screen(env: Env, i: Instr, ops: nat): Result<nat> {
    var counted := CountsOps(env) && i.opcode > OP_16;
    if |i.data| > MAX_SCRIPT_ELEMENT_SIZE then Err(PushSize)
    else if counted && ops + 1 > MAX_OPS_PER_SCRIPT then Err(OpCount)
    else if IsDisabled(i.opcode) then Err(DisabledOpcode)
    else if i.opcode == OP_CODESEPARATOR && env.sv == Base && VerifyConstScriptCode in env.flags then
      Err(OpCodeSeparator)
    else Ok(if counted then ops + 1 else ops)
  }

  function Dispatch(env: Env, script: Bytes, t: Token, st: State): Outcome
    requires env.sv != Taproot && Budgeted(env, st) && st.codeStart <= |script|
  {
    var op, active := t.instr.opcode, AllTrue(st.conds);
    if active && op <= OP_PUSHDATA4 then
      if VerifyMinimalData in env.flags && !MinimalPush(t.instr.data, op) then Halt(MinimalData, st.ecdsa)
      else Next(st.(stack := st.stack + [t.instr.data]))
    else if active || IsFlow(op) then ExecOp(env, script, t.next, op, st)
    else Next(st)
  }

  function Step(env: Env, script: Bytes, t: Token, st: State): Outcome
    requires env.sv != Taproot && Budgeted(env, st) && st.codeStart <= |script|
  {
    match Screen(env, t.instr, st.ops)
    case Err(e) => Halt(e, st.ecdsa)
    case Ok(ops) =>
      match Dispatch(env, script, t, st.(ops := ops))
      case Halt(e, n) => Halt(e, n)
      case Next(st') =>
        if |st'.stack| + |st'.alt| > MAX_STACK_SIZE then Halt(StackSize, st'.ecdsa)
        else Next(st'.(pos := st'.pos + 1))
  }

  /** What every instruction leaves alone, and where the signed code can start. */
  lemma StepFrame(env: Env, script: Bytes, t: Token, st: State)
    requires env.sv != Taproot && Budgeted(env, st) && st.codeStart <= |script|
    ensures var r := Step(env, script, t, st);
            r.Next? ==>
              && Budgeted(env, r.st) && r.st.pos == st.pos + 1
              && (r.st.codeStart == st.codeStart || r.st.codeStart == t.next)
              && |st.conds| - 1 <= |r.st.conds| <= |st.conds| + 1
  {
    hide DataOp, MinimalPush, IsDisabled, IfArgument;
  }

  // ---- Whole runs ----------------------------------------------------------------------

  function Run(env: Env, script: Bytes, pc: nat, st: State): Outcome
    requires env.sv != Taproot && Budgeted(env, st) && st.codeStart <= |script| && pc <= |script|
    decreases |script| - pc
  {
    if pc == |script| then
      if st.conds != [] then Halt(UnbalancedConditional, st.ecdsa) else Next(st)
    else
      match ReadAt(script, pc)
      case None => Halt(BadOpcode, st.ecdsa)
      case Some(t) =>
        StepFrame(env, script, t, st);
        match Step(env, script, t, st)
        case Halt(e, n) => Halt(e, n)
        case Next(st') => Run(env, script, t.next, st')
  }

  function Initial(stack: Stack, ed: ExecData): State {
    State(stack, [], [], 0, 0, 0, ed.(codeSeparatorPos := 0xFFFF_FFFF, codeSeparatorPosInit := true), 0, 0)
  }

  function Eval(env: Env, script: Bytes, stack: Stack, ed: ExecData): Outcome
    requires env.sv != Taproot && (env.sv == Tapscript ==> ed.weightInit)
  {
    if CountsOps(env) && |script| > MAX_SCRIPT_SIZE then Halt(ScriptSize, 0)
    else Run(env, script, 0, Initial(stack, ed))
  }
}
