/** Resource limits that hold after every instruction of every run. */
module Bounds {
  import opened ScriptTypes
  import opened ScriptNum
  import opened Condition
  import opened Grammar
  import opened Encoding
  import opened Signatures
  import opened Machine

  /** Operations and signature checks. Where operations are counted, every check is covered
      by a counted operation or a counted key; in tapscript no ECDSA check happens at all. */
  predicate OpsBounded(env: Env, st: State) {
    && st.ops <= MAX_OPS_PER_SCRIPT
    && st.ecdsa <= st.ops
    && (env.sv == Tapscript ==> st.ops == 0)
  }

  /** The weight budget: every signature charged for took 50 units, and it is never overdrawn. */
  predicate WeightKept(budget: int, st: State) {
    && st.exec.weightLeft == budget - VALIDATION_WEIGHT_PER_SIGOP_PASSED * st.charged
    && (budget >= 0 ==> st.exec.weightLeft >= 0)
  }

  predicate StacksBounded(st: State) { |st.stack| + |st.alt| <= MAX_STACK_SIZE }

  predicate ElementsBounded(max: nat, st: State) { Within(max, st.stack) && Within(max, st.alt) }

  // ---- One instruction -----------------------------------------------------------------

  lemma SigOpsBounded(env: Env, op: Byte, code: Bytes, st: State)
    requires IsSig(op) && env.sv != Taproot && Budgeted(env, st)
    requires st.ops <= MAX_OPS_PER_SCRIPT && (env.sv == Tapscript ==> st.ops == 0)
    requires st.ecdsa + (if env.sv == Tapscript then 0 else 1) <= st.ops
    ensures match SigOp(env, op, code, st)
            case Next(st') => OpsBounded(env, st')
            case Halt(_, n) => n <= MAX_OPS_PER_SCRIPT
  {
    hide CheckSigEcdsa, CheckSigSchnorr, CheckMultiSig, MultiSigOps, FromBytes, Serialize;
    if op == 0xac || op == 0xad {
      if env.sv != Tapscript && |st.stack| >= 2 {
        OneCheck(env, code, st.stack[|st.stack| - 2], st.stack[|st.stack| - 1]);
      }
    } else if op != 0xba && env.sv != Tapscript {
      MultiSigChecks(env, code, st.ops, st.stack);
    }
  }

  lemma OneCheck(env: Env, code: Bytes, sig: Bytes, pubkey: Bytes)
    ensures CheckSigEcdsa(env, code, sig, pubkey).checks <= 1
  {
    hide SignedCode, PairEncoding;
  }

  lemma MultiSigChecks(env: Env, code: Bytes, ops: nat, stack: Stack)
    requires ops <= MAX_OPS_PER_SCRIPT
    ensures ops + CheckMultiSig(env, code, ops, stack).checks <= MAX_OPS_PER_SCRIPT
    ensures ops + CheckMultiSig(env, code, ops, stack).checks <= MultiSigOps(env, ops, stack) <= MAX_OPS_PER_SCRIPT
  {
    hide MultiSigOperands, SignedCodeAll, Greedy;
    match MultiSigOperands(env, ops, stack)
    case Err(_) =>
    case Ok(args) =>
      match SignedCodeAll(env, code, args.sigs)
      case Err(_) =>
      case Ok(code') => GreedyDecides(env, code', args.sigs, args.keys);
  }

  lemma StepOpsBounded(env: Env, script: Bytes, t: Token, st: State)
    requires env.sv != Taproot && Budgeted(env, st) && st.codeStart <= |script|
    requires OpsBounded(env, st)
    ensures match Step(env, script, t, st)
            case Next(st') => OpsBounded(env, st') && StacksBounded(st')
            case Halt(_, n) => n <= MAX_OPS_PER_SCRIPT
  {
    hide DataOp, SigOp, CastToBool, IsDisabled, MinimalPush;
    var op := t.instr.opcode;
    if Screen(env, t.instr, st.ops).Ok? && AllTrue(st.conds) && IsSig(op) {
      SigOpsBounded(env, op, script[st.codeStart..], st.(ops := Screen(env, t.instr, st.ops).value));
    }
  }

  lemma SchnorrWeight(env: Env, ed: ExecData, sig: Bytes, pubkey: Bytes)
    requires ed.weightInit && CheckSigSchnorr(env, ed, sig, pubkey).Ok?
    ensures var left := CheckSigSchnorr(env, ed, sig, pubkey).value.1.weightLeft;
            if sig == [] then left == ed.weightLeft
            else left == ed.weightLeft - VALIDATION_WEIGHT_PER_SIGOP_PASSED && left >= 0
  {
  }

  lemma SigWeight(env: Env, op: Byte, code: Bytes, st: State, budget: int)
    requires IsSig(op) && env.sv != Taproot && Budgeted(env, st)
    requires WeightKept(budget, st)
    ensures SigOp(env, op, code, st).Next? ==> WeightKept(budget, SigOp(env, op, code, st).st)
  {
    hide CheckSigEcdsa, CheckSigSchnorr, CheckMultiSig, MultiSigOps, FromBytes, Serialize;
    var n := |st.stack|;
    if env.sv == Tapscript && n >= 2 {
      var sig := if op == 0xba && n >= 3 then st.stack[n - 3] else st.stack[n - 2];
      if CheckSigSchnorr(env, st.exec, sig, st.stack[n - 1]).Ok? {
        SchnorrWeight(env, st.exec, sig, st.stack[n - 1]);
      }
    }
  }

  lemma StepWeight(env: Env, script: Bytes, t: Token, st: State, budget: int)
    requires env.sv != Taproot && Budgeted(env, st) && st.codeStart <= |script|
    requires WeightKept(budget, st)
    ensures Step(env, script, t, st).Next? ==> WeightKept(budget, Step(env, script, t, st).st)
  {
    hide DataOp, SigOp, CastToBool, IsDisabled, MinimalPush;
    var op := t.instr.opcode;
    if Screen(env, t.instr, st.ops).Ok? && AllTrue(st.conds) && IsSig(op) {
      SigWeight(env, op, script[st.codeStart..], st.(ops := Screen(env, t.instr, st.ops).value), budget);
    }
  }

  lemma NumericWithin(max: nat, env: Env, op: Byte, stack: Stack)
    requires IsUnary(op) || IsBinary(op) || op == 0xa5
    requires max >= MAX_SCRIPT_ELEMENT_SIZE && Within(max, stack) && NumericOp(env, op, stack).Ok?
    ensures Within(max, NumericOp(env, op, stack).value)
  {
    hide Decode, Serialize, Minimal;
    var n := |stack|;
    OperandBound(stack[n - 1]);
    if IsUnary(op) {
      ResultSize(UnaryValue(op, Decode(stack[n - 1])));
    } else if IsBinary(op) {
      OperandBound(stack[n - 2]);
      ResultSize(BinaryValue(op, Decode(stack[n - 2]), Decode(stack[n - 1])));
    }
  }

  /** The size of an item takes fewer bytes than the item may have. */
  lemma ItemSize(max: nat, n: nat)
    requires n <= max && max >= MAX_SCRIPT_ELEMENT_SIZE
    ensures |Serialize(n)| <= max
  {
    if n <= 0x1_0000_0000 {
      ResultSize(n);
    } else {
      PowOutgrows(n);
      SerializeSize(n, n);
    }
  }

  lemma {:induction false} PowOutgrows(n: nat)
    ensures 2 * n < Pow256(n) || n == 0
  {
    if n > 1 { PowOutgrows(n - 1); } else if n == 1 { assert Pow256(1) == 256 * Pow256(0); }
  }

  lemma PlainWithin(max: nat, env: Env, op: Byte, stack: Stack)
    requires max >= MAX_SCRIPT_ELEMENT_SIZE && Within(max, stack) && PlainOp(env, op, stack).Ok?
    requires |PlainOp(env, op, stack).value| <= MAX_STACK_SIZE
    ensures Within(max, PlainOp(env, op, stack).value)
  {
    hide FromBytes, Serialize, CastToBool;
    if op == 0x74 { ResultSize(|stack|); }
    if op == 0x4f || 0x51 <= op <= 0x60 { ResultSize(op - 0x50); }
    if op == 0x82 && stack != [] { ItemSize(max, |Last(stack)|); }
  }

  lemma DataWithin(max: nat, env: Env, op: Byte, stack: Stack)
    requires max >= MAX_SCRIPT_ELEMENT_SIZE && Within(max, stack)
    requires DataOp(env, op, stack).Ok? && |DataOp(env, op, stack).value| <= MAX_STACK_SIZE
    ensures Within(max, DataOp(env, op, stack).value)
  {
    hide NumericOp, PlainOp, StackEffect, HashValue;
    EffectsInRange(op);
    if StackEffect(op).Some? {
    } else if IsUnary(op) || IsBinary(op) || op == 0xa5 {
      NumericWithin(max, env, op, stack);
    } else if !IsHash(op) {
      PlainWithin(max, env, op, stack);
    }
  }

  lemma SigWithin(max: nat, env: Env, op: Byte, code: Bytes, st: State)
    requires IsSig(op) && env.sv != Taproot && Budgeted(env, st)
    requires max >= MAX_SCRIPT_ELEMENT_SIZE && Within(max, st.stack)
    ensures SigOp(env, op, code, st).Next? ==> Within(max, SigOp(env, op, code, st).st.stack)
    ensures SigOp(env, op, code, st).Next? ==> SigOp(env, op, code, st).st.alt == st.alt
  {
    hide CheckSigEcdsa, CheckSigSchnorr, MultiSigOps, Decode, Minimal, Serialize, SignedCodeAll, Greedy;
    if op == 0xba && |st.stack| >= 3 {
      var num := st.stack[|st.stack| - 2];
      if |num| <= 4 {
        OperandBound(num);
        ResultSize(Decode(num));
        ResultSize(Decode(num) + 1);
      }
    } else if op == 0xae || op == 0xaf {
      hide MultiSigOperands;
      CheckMultiSigMeaning(env, code, st.ops, st.stack);
    }
  }

  lemma StepWithin(max: nat, env: Env, script: Bytes, t: Token, st: State)
    requires env.sv != Taproot && Budgeted(env, st) && st.codeStart <= |script|
    requires max >= MAX_SCRIPT_ELEMENT_SIZE && ElementsBounded(max, st)
    ensures Step(env, script, t, st).Next? ==> ElementsBounded(max, Step(env, script, t, st).st)
  {
    hide DataOp, SigOp, CastToBool, IsDisabled, MinimalPush, IfArgument;
    if Step(env, script, t, st).Next? {
      var op := t.instr.opcode;
      var st' := st.(ops := Screen(env, t.instr, st.ops).value);
      if AllTrue(st.conds) && op > OP_PUSHDATA4 && !IsFlow(op) {
        if IsSig(op) {
          SigWithin(max, env, op, script[st.codeStart..], st');
        } else if op != 0x6b && op != 0x6c && op != OP_CODESEPARATOR {
          DataWithin(max, env, op, st'.stack);
        }
      }
    }
  }

  // ---- Whole runs ----------------------------------------------------------------------

  /** The states after each instruction of a run, up to the end or to the failure. */
  function Visited(env: Env, script: Bytes, pc: nat, st: State): seq<State>
    requires env.sv != Taproot && Budgeted(env, st) && st.codeStart <= |script| && pc <= |script|
    decreases |script| - pc
  {
    match ReadAt(script, pc)
    case None => []
    case Some(t) =>
      StepFrame(env, script, t, st);
      match Step(env, script, t, st)
      case Halt(_, _) => []
      case Next(st') => [st'] + Visited(env, script, t.next, st')
  }

  ghost predicate Bounded(env: Env, budget: int, fits: bool, st: State) {
    && OpsBounded(env, st) && WeightKept(budget, st) && StacksBounded(st)
    && (fits ==> ElementsBounded(MAX_SCRIPT_ELEMENT_SIZE, st))
  }

  lemma {:induction false} RunBounded(env: Env, script: Bytes, pc: nat, st: State, budget: int, fits: bool)
    requires env.sv != Taproot && Budgeted(env, st) && st.codeStart <= |script| && pc <= |script|
    requires OpsBounded(env, st) && WeightKept(budget, st) && (fits ==> ElementsBounded(MAX_SCRIPT_ELEMENT_SIZE, st))
    ensures forall s :: s in Visited(env, script, pc, st) ==> Bounded(env, budget, fits, s)
    ensures match Run(env, script, pc, st)
            case Next(end) => end == st || Bounded(env, budget, fits, end)
            case Halt(_, n) => n <= MAX_OPS_PER_SCRIPT
    decreases |script| - pc
  {
    hide Step, ReadAt;
    if pc < |script| && ReadAt(script, pc).Some? {
      var t := ReadAt(script, pc).value;
      StepFrame(env, script, t, st);
      StepOpsBounded(env, script, t, st);
      StepWeight(env, script, t, st, budget);
      if fits { StepWithin(MAX_SCRIPT_ELEMENT_SIZE, env, script, t, st); }
      match Step(env, script, t, st)
      case Halt(_, _) =>
      case Next(st') =>
        RunBounded(env, script, t.next, st', budget, fits);
    } else {
      assert ReadAt(script, |script|).None? by { ReadEnd(script); }
    }
  }

  lemma ReadEnd(script: Bytes)
    ensures ReadAt(script, |script|).None?
  {
  }

  /** For every script, stack and flag set: along the run operations stay at 201 and ECDSA
      checks below them, also in a run that fails; the tapscript weight left is the budget
      minus 50 for every signature charged and is not negative; the two stacks together
      stay at 1000 items; and no item outgrows 520 bytes if none did at the start. */
  lemma EvalBounded(env: Env, script: Bytes, stack: Stack, ed: ExecData)
    requires env.sv != Taproot && (env.sv == Tapscript ==> ed.weightInit)
    ensures var start := Initial(stack, ed);
            forall s :: s in Visited(env, script, 0, start) ==>
              Bounded(env, ed.weightLeft, Fits(stack), s)
    ensures match Eval(env, script, stack, ed)
            case Next(end) =>
              && end.ecdsa <= MAX_OPS_PER_SCRIPT && (env.sv == Tapscript ==> end.ecdsa == 0)
              && end.exec.weightLeft == ed.weightLeft - VALIDATION_WEIGHT_PER_SIGOP_PASSED * end.charged
            case Halt(_, n) => n <= MAX_OPS_PER_SCRIPT
  {
    hide Run, Visited;
    RunBounded(env, script, 0, Initial(stack, ed), ed.weightLeft, Fits(stack));
  }

  /** A stack within the limits is within the limits after any script. */
  lemma EvalKeepsLimits(env: Env, script: Bytes, stack: Stack, ed: ExecData)
    requires env.sv != Taproot && (env.sv == Tapscript ==> ed.weightInit)
    requires Fits(stack) && |stack| <= MAX_STACK_SIZE && Eval(env, script, stack, ed).Next?
    ensures var end := Eval(env, script, stack, ed).st.stack; Fits(end) && |end| <= MAX_STACK_SIZE
  {
    hide Run, Visited;
    RunBounded(env, script, 0, Initial(stack, ed), ed.weightLeft, true);
  }
}
