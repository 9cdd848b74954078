/** Flags are soft forks: what passes under more flags passes under fewer. */
module SoftFork {
  import opened ScriptTypes
  import opened ScriptNum
  import opened Condition
  import opened Grammar
  import opened Encoding
  import opened Signatures
  import opened Machine
  import opened VerifySpec
  import opened P2shWrap

  /** The same environment with some flags left out. */
  ghost predicate Relaxed(f: Env, g: Env) {
    f == g.(flags := f.flags) && f.flags <= g.flags
  }

  // ---- Signatures ----------------------------------------------------------------------

  lemma PairEncodingRelaxed(f: Env, g: Env, sig: Bytes, pubkey: Bytes)
    requires Relaxed(f, g) && PairEncoding(g, sig, pubkey).Ok?
    ensures PairEncoding(f, sig, pubkey).Ok?
  {
    hide ValidSignatureEncoding, DefinedHashType, CompressedOrUncompressed, Compressed;
  }

  lemma SignedCodeRelaxed(f: Env, g: Env, code: Bytes, sig: Bytes)
    requires Relaxed(f, g) && SignedCode(g, code, sig).Ok?
    ensures SignedCode(f, code, sig) == SignedCode(g, code, sig)
  {
  }

  lemma {:induction false} SignedCodeAllRelaxed(f: Env, g: Env, code: Bytes, sigs: seq<Bytes>)
    requires Relaxed(f, g) && SignedCodeAll(g, code, sigs).Ok?
    ensures SignedCodeAll(f, code, sigs) == SignedCodeAll(g, code, sigs)
    decreases |sigs|
  {
    if sigs != [] {
      SignedCodeRelaxed(f, g, code, sigs[0]);
      SignedCodeAllRelaxed(f, g, SignedCode(g, code, sigs[0]).value, sigs[1..]);
    }
  }

  lemma CheckSigEcdsaRelaxed(f: Env, g: Env, code: Bytes, sig: Bytes, pubkey: Bytes)
    requires Relaxed(f, g) && CheckSigEcdsa(g, code, sig, pubkey).result.Ok?
    ensures CheckSigEcdsa(f, code, sig, pubkey) == CheckSigEcdsa(g, code, sig, pubkey)
  {
    hide SignedCode, PairEncoding;
    SignedCodeRelaxed(f, g, code, sig);
    PairEncodingRelaxed(f, g, sig, pubkey);
  }

  lemma CheckSigSchnorrRelaxed(f: Env, g: Env, ed: ExecData, sig: Bytes, pubkey: Bytes)
    requires Relaxed(f, g) && ed.weightInit && CheckSigSchnorr(g, ed, sig, pubkey).Ok?
    ensures CheckSigSchnorr(f, ed, sig, pubkey) == CheckSigSchnorr(g, ed, sig, pubkey)
  {
  }

  lemma {:induction false} GreedyRelaxed(f: Env, g: Env, code: Bytes, sigs: seq<Bytes>, keys: seq<Bytes>)
    requires Relaxed(f, g) && Greedy(g, code, sigs, keys).result.Ok?
    ensures Greedy(f, code, sigs, keys) == Greedy(g, code, sigs, keys)
    decreases |keys|
  {
    hide PairEncoding;
    if sigs != [] && |sigs| <= |keys| {
      PairEncodingRelaxed(f, g, sigs[0], keys[0]);
      var ok := g.checker.ecdsa(sigs[0], keys[0], code, g.sv);
      GreedyRelaxed(f, g, code, if ok then sigs[1..] else sigs, keys[1..]);
    }
  }

  lemma OperandsRelaxed(f: Env, g: Env, ops: nat, stack: Stack)
    requires Relaxed(f, g) && MultiSigOperands(g, ops, stack).Ok?
    ensures MultiSigOperands(f, ops, stack) == MultiSigOperands(g, ops, stack)
  {
  }

  lemma CheckMultiSigRelaxed(f: Env, g: Env, code: Bytes, ops: nat, stack: Stack)
    requires Relaxed(f, g) && CheckMultiSig(g, code, ops, stack).result.Ok?
    ensures CheckMultiSig(f, code, ops, stack) == CheckMultiSig(g, code, ops, stack)
    ensures MultiSigOps(f, ops, stack) == MultiSigOps(g, ops, stack)
  {
    hide MultiSigOperands, SignedCodeAll, Greedy;
    OperandsRelaxed(f, g, ops, stack);
    var args := MultiSigOperands(g, ops, stack).value;
    SignedCodeAllRelaxed(f, g, code, args.sigs);
    GreedyRelaxed(f, g, SignedCodeAll(g, code, args.sigs).value, args.sigs, args.keys);
  }

  // ---- The machine ---------------------------------------------------------------------

  lemma NumericRelaxed(f: Env, g: Env, op: Byte, stack: Stack)
    requires IsUnary(op) || IsBinary(op) || op == 0xa5
    requires Relaxed(f, g) && NumericOp(g, op, stack).Ok?
    ensures NumericOp(f, op, stack) == NumericOp(g, op, stack)
  {
    hide Decode, Minimal, Serialize, UnaryValue, BinaryValue;
  }

  lemma PlainRelaxed(f: Env, g: Env, op: Byte, stack: Stack)
    requires Relaxed(f, g) && PlainOp(g, op, stack).Ok?
    ensures PlainOp(f, op, stack) == PlainOp(g, op, stack)
  {
    hide Decode, Minimal, Serialize, CastToBool;
  }

  lemma DataRelaxed(f: Env, g: Env, op: Byte, stack: Stack)
    requires Relaxed(f, g) && DataOp(g, op, stack).Ok?
    ensures DataOp(f, op, stack) == DataOp(g, op, stack)
  {
    hide NumericOp, PlainOp, Rearrange, StackEffect;
    if IsUnary(op) || IsBinary(op) || op == 0xa5 {
      if StackEffect(op).None? { NumericRelaxed(f, g, op, stack); }
    } else if StackEffect(op).None? && !IsHash(op) {
      PlainRelaxed(f, g, op, stack);
    }
  }

  lemma SigRelaxed(f: Env, g: Env, op: Byte, code: Bytes, st: State)
    requires IsSig(op) && g.sv != Taproot && Budgeted(g, st)
    requires Relaxed(f, g) && SigOp(g, op, code, st).Next?
    ensures SigOp(f, op, code, st) == SigOp(g, op, code, st)
  {
    hide CheckSigEcdsa, CheckSigSchnorr, CheckMultiSig, MultiSigOps, FromBytes, Serialize;
    var n := |st.stack|;
    if op == 0xba {
      assert Num(f, st.stack[n - 2]) == Num(g, st.stack[n - 2]) by { NumRelaxed(f, g, st.stack[n - 2]); }
      CheckSigSchnorrRelaxed(f, g, st.exec, st.stack[n - 3], st.stack[n - 1]);
    } else if op == 0xac || op == 0xad {
      if g.sv == Tapscript {
        CheckSigSchnorrRelaxed(f, g, st.exec, st.stack[n - 2], st.stack[n - 1]);
      } else {
        CheckSigEcdsaRelaxed(f, g, code, st.stack[n - 2], st.stack[n - 1]);
      }
    } else {
      CheckMultiSigRelaxed(f, g, code, st.ops, st.stack);
    }
  }

  lemma NumRelaxed(f: Env, g: Env, b: Bytes)
    requires Relaxed(f, g) && Num(g, b).Ok?
    ensures Num(f, b) == Num(g, b)
  {
  }

  lemma StepRelaxed(f: Env, g: Env, script: Bytes, t: Token, st: State)
    requires g.sv != Taproot && Budgeted(g, st) && st.codeStart <= |script|
    requires Relaxed(f, g) && Step(g, script, t, st).Next?
    ensures Step(f, script, t, st) == Step(g, script, t, st)
  {
    hide DataOp, SigOp, CastToBool, AltOp, IsDisabled, MinimalPush;
    var op := t.instr.opcode;
    var st' := st.(ops := Screen(g, t.instr, st.ops).value);
    assert Screen(f, t.instr, st.ops) == Screen(g, t.instr, st.ops);
    if AllTrue(st.conds) && op > OP_PUSHDATA4 && !IsFlow(op) {
      if IsSig(op) {
        SigRelaxed(f, g, op, script[st.codeStart..], st');
      } else if op != 0x6b && op != 0x6c && op != OP_CODESEPARATOR {
        DataRelaxed(f, g, op, st'.stack);
      }
    }
  }

  /** A successful run under more flags is the same run under fewer: same stack, same
      execution data, same signature checks. */
  lemma {:induction false} RunRelaxed(f: Env, g: Env, script: Bytes, pc: nat, st: State)
    requires g.sv != Taproot && Budgeted(g, st) && st.codeStart <= |script| && pc <= |script|
    requires Relaxed(f, g) && Run(g, script, pc, st).Next?
    ensures Run(f, script, pc, st) == Run(g, script, pc, st)
    decreases |script| - pc
  {
    hide Step, ReadAt;
    if pc < |script| {
      var t := ReadAt(script, pc).value;
      StepFrame(g, script, t, st);
      StepRelaxed(f, g, script, t, st);
      RunRelaxed(f, g, script, t.next, Step(g, script, t, st).st);
    }
  }

  lemma EvalRelaxed(f: Env, g: Env, script: Bytes, stack: Stack, ed: ExecData)
    requires g.sv != Taproot && (g.sv == Tapscript ==> ed.weightInit)
    requires Relaxed(f, g) && EvalResult(g, script, stack, ed).Ok?
    ensures EvalResult(f, script, stack, ed) == EvalResult(g, script, stack, ed)
  {
    hide Run;
    RunRelaxed(f, g, script, 0, Initial(stack, ed));
  }

  // ---- Witness programs ----------------------------------------------------------------

  lemma ExecuteRelaxed(f: Env, g: Env, stack: Stack, script: Bytes, ed: ExecData)
    requires g.sv == WitnessV0 || (g.sv == Tapscript && ed.weightInit)
    requires Relaxed(f, g) && ExecuteWitness(g, stack, script, ed).Ok?
    ensures ExecuteWitness(f, stack, script, ed).Ok?
  {
    hide EvalResult, HasOpSuccess, Instrs, CastToBool, Fits;
    if !(g.sv == Tapscript && HasOpSuccess(Instrs(script, 0))) {
      EvalRelaxed(f, g, script, stack, ed);
    }
  }

  lemma V0Relaxed(f: Env, g: Env, wit: Stack, program: Bytes)
    requires Relaxed(f, g) && VerifyV0(g, wit, program).Ok?
    ensures VerifyV0(f, wit, program).Ok?
  {
    hide ExecuteWitness;
    var fv, gv := f.(sv := WitnessV0), g.(sv := WitnessV0);
    if |program| == 32 {
      ExecuteRelaxed(fv, gv, Pop(wit), Last(wit), FRESH_EXEC_DATA);
    } else if |program| == 20 {
      ExecuteRelaxed(fv, gv, wit, KeyHashScript(program), FRESH_EXEC_DATA);
    }
  }

  lemma TaprootRelaxed(f: Env, g: Env, wit: Stack, program: Bytes)
    requires |program| == 32
    requires Relaxed(f, g) && VerifyTaprootSpend(g, wit, program).Ok?
    ensures VerifyTaprootSpend(f, wit, program).Ok?
  {
    hide ExecuteWitness, TaprootCommitment, TapleafHash, SerializedSize, AnnexData, HasAnnex;
    if VerifyTaproot in f.flags {
      var ed := AnnexData(g.crypto, wit);
      var stack := if HasAnnex(wit) then Pop(wit) else wit;
      assert HasAnnex(wit) ==> |wit| >= 2 by { AnnexSize(wit); }
      if |stack| != 1 {
        var control, script, args := Last(stack), Last(Pop(stack)), Pop(Pop(stack));
        var leafVersion: Byte := control[0] - control[0] % 2;
        if leafVersion == 0xc0 {
          var leaf := TapleafHash(g.crypto, leafVersion, script);
          var weight := |Wire.CompactSize(|wit|)| + SerializedSize(wit) + VALIDATION_WEIGHT_OFFSET;
          ExecuteRelaxed(f.(sv := Tapscript), g.(sv := Tapscript), args, script,
            ed.(tapleafHash := leaf, tapleafHashInit := true, weightLeft := weight, weightInit := true));
        }
      }
    }
  }

  lemma AnnexSize(wit: Stack)
    ensures HasAnnex(wit) ==> |wit| >= 2
  {
  }

  lemma ProgramRelaxed(f: Env, g: Env, wit: Stack, p: Program, isP2sh: bool)
    requires Relaxed(f, g) && VerifyProgram(g, wit, p, isP2sh).Ok?
    ensures VerifyProgram(f, wit, p, isP2sh).Ok?
  {
    hide VerifyV0, VerifyTaprootSpend;
    if p.version == 0 {
      V0Relaxed(f, g, wit, p.program);
    } else if p.version == 1 && |p.program| == 32 && !isP2sh {
      TaprootRelaxed(f, g, wit, p.program);
    }
  }

  // ---- The whole verification ----------------------------------------------------------

  /** CLEANSTACK only with WITNESS, and WITNESS only with P2SH. */
  predicate Nested(flags: Flags) {
    && (VerifyCleanStack in flags ==> VerifyWitness in flags)
    && (VerifyWitness in flags ==> VerifyP2sh in flags)
  }

  /** The spends are the same as soon as the smaller set looks at the witness. */
  ghost predicate Agree(f: Env, rf: Result<Spent>, rg: Result<Spent>) {
    rf.Ok? && (VerifyWitness in f.flags ==> rf == rg)
  }

  lemma WitnessPartRelaxed(f: Env, g: Env, script: Bytes, wit: Stack, isP2sh: bool,
                           malleated: Option<ScriptError>, stack: Stack)
    requires Relaxed(f, g) && stack != []
    requires WitnessPart(g, script, wit, isP2sh, malleated, stack).Ok?
    ensures Agree(f, WitnessPart(f, script, wit, isP2sh, malleated, stack),
                  WitnessPart(g, script, wit, isP2sh, malleated, stack))
  {
    hide VerifyProgram, WitnessProgram;
    if VerifyWitness in f.flags && WitnessProgram(script).Some? {
      ProgramRelaxed(f, g, wit, WitnessProgram(script).value, isP2sh);
    }
  }

  lemma RedeemRelaxed(f: Env, g: Env, scriptSig: Bytes, wit: Stack, saved: Stack, ed: ExecData)
    requires Relaxed(f, g) && saved != [] && g.sv == Base
    requires RedeemSpend(g, scriptSig, wit, saved, ed).Ok?
    ensures Agree(f, RedeemSpend(f, scriptSig, wit, saved, ed), RedeemSpend(g, scriptSig, wit, saved, ed))
  {
    hide EvalResult, WitnessPart, WitnessProgram, PushOnly, Encode;
    var redeem := Last(saved);
    EvalRelaxed(f, g, redeem, Pop(saved), ed);
    var stack := EvalResult(g, redeem, Pop(saved), ed).value.stack;
    var bad := WitnessProgram(redeem).Some? && scriptSig != Encode(DirectPush(redeem));
    WitnessPartRelaxed(f, g, redeem, wit, true, if bad then Some(WitnessMalleatedP2sh) else None, stack);
  }

  lemma SpendRelaxed(f: Env, g: Env, scriptSig: Bytes, scriptPubKey: Bytes, wit: Stack, saved: Evaluated)
    requires Relaxed(f, g) && g.sv == Base && Nested(f.flags)
    requires Spend(g, scriptSig, scriptPubKey, wit, saved).Ok?
    ensures Agree(f, Spend(f, scriptSig, scriptPubKey, wit, saved), Spend(g, scriptSig, scriptPubKey, wit, saved))
  {
    hide EvalResult, WitnessPart, RedeemSpend, IsP2sh;
    EvalRelaxed(f, g, scriptPubKey, saved.stack, saved.exec);
    var end := EvalResult(g, scriptPubKey, saved.stack, saved.exec).value;
    WitnessPartRelaxed(f, g, scriptPubKey, wit, false,
      if scriptSig == [] then None else Some(WitnessMalleated), end.stack);
    if VerifyP2sh in f.flags && IsP2sh(scriptPubKey) {
      RedeemRelaxed(f, g, scriptSig, wit, saved.stack, end.exec);
    }
  }

  /** For nested flag sets: every spend accepted under more flags is accepted under these. */
  lemma VerifyRelaxed(f: Env, g: Env, scriptSig: Bytes, scriptPubKey: Bytes, wit: Stack)
    requires Relaxed(f, g) && g.sv == Base && Nested(f.flags)
    requires VerifyScript(g, scriptSig, scriptPubKey, wit).Ok?
    ensures VerifyScript(f, scriptSig, scriptPubKey, wit).Ok?
  {
    hide EvalResult, Spend, PushOnly;
    EvalRelaxed(f, g, scriptSig, [], FRESH_EXEC_DATA);
    SpendRelaxed(f, g, scriptSig, scriptPubKey, wit, EvalResult(g, scriptSig, [], FRESH_EXEC_DATA).value);
  }

  // ---- The condition is exact ----------------------------------------------------------

  /** With these hashes and this checker, adding flags to `f` never makes a refused spend
      acceptable. */
  ghost predicate OnlyRestricts(f: Flags, checker: Checker, crypto: Crypto) {
    forall g: Flags, scriptSig: Bytes, scriptPubKey: Bytes, wit: Stack ::
      f <= g && VerifyScript(Env(g, checker, crypto, Base), scriptSig, scriptPubKey, wit).Ok? ==>
      VerifyScript(Env(f, checker, crypto, Base), scriptSig, scriptPubKey, wit).Ok?
  }

  lemma SerializeOne()
    ensures Serialize(1) == [1]
  {
    assert LeDigits(1) == [1] + LeDigits(0);
  }

  /** OP_1 pushes [1], under every flag set. */
  lemma StepOne(env: Env, script: Bytes, st: State)
    requires CountsOps(env) && st.codeStart <= |script| && st.conds == [] && |st.stack| + |st.alt| < MAX_STACK_SIZE
    ensures Step(env, script, Token(Instr(0x51, []), 1), st) ==
            Next(st.(stack := st.stack + [[1]], pos := st.pos + 1))
  {
    SerializeOne();
    hide Serialize;
    assert AllTrue(st.conds);
  }

  /** A pay-to-anchor output leaves two items, so CLEANSTACK refuses it unless WITNESS
      cuts the stack first. */
  lemma AnchorBreaksCleanStack(env: Env)
    requires env.sv == Base && VerifyCleanStack in env.flags && VerifyWitness !in env.flags
    ensures VerifyScript(env.(flags := env.flags + {VerifyWitness}), [], ProgramScript(0x51, [0x4e, 0x73]), []).Ok?
    ensures VerifyScript(env, [], ProgramScript(0x51, [0x4e, 0x73]), []).Err?
  {
    hide VerifyScript;
    AnchorVerdict(env.(flags := env.flags + {VerifyWitness}));
    AnchorVerdict(env);
  }

  lemma EvalAnchor(env: Env, ed: ExecData)
    requires env.sv == Base
    ensures EvalResult(env, ProgramScript(0x51, [0x4e, 0x73]), [], ed) == Ok(Evaluated([[1], [0x4e, 0x73]], After(ed)))
  {
    hide Step, ProgramScript;
    var s, p: Bytes := ProgramScript(0x51, [0x4e, 0x73]), [0x4e, 0x73];
    ProgramTokens(0x51, p);
    assert |s| == 4 by { AnchorSize(); }
    var st := Initial([], ed);
    StepOne(env, s, st);
    var st1 := st.(stack := [[1]], pos := 1);
    assert st.stack + [[1]] == [[1]];
    assert Run(env, s, 0, st) == Run(env, s, 1, st1);
    StepPush(env, s, Token(Instr(2, p), 4), st1);
    var st2 := st1.(stack := [[1], p], pos := 2);
    assert st1.stack + [p] == [[1], p];
    assert Run(env, s, 1, st1) == Run(env, s, 4, st2);
  }

  lemma AnchorSize()
    ensures |ProgramScript(0x51, [0x4e, 0x73])| == 4
  {
  }

  lemma AnchorVerdict(env: Env)
    requires env.sv == Base
    ensures VerifyScript(env, [], ProgramScript(0x51, [0x4e, 0x73]), []).Ok? <==>
            VerifyCleanStack !in env.flags || VerifyWitness in env.flags
  {
    hide EvalResult, PushOnly, WitnessProgram, ProgramScript, VerifyTaprootSpend, VerifyV0, RedeemSpend;
    var s, p: Bytes := ProgramScript(0x51, [0x4e, 0x73]), [0x4e, 0x73];
    EvalNothing(env, [], FRESH_EXEC_DATA);
    EvalAnchor(env, After(FRESH_EXEC_DATA));
    ProgramTokens(0x51, p);
    assert PushOnly([], 0) by { PushOnlyStep([], 0); }
    assert TopTrue([[1], p]).Ok? by { assert p[0] != 0; }
    assert VerifyProgram(env, [], Program(1, p), false).Ok?;
  }

  /** The program that commits to the one-byte script OP_1. */
  function TrivialProgram(c: Crypto): Hash32 { c.sha256([0x51]) }

  /** Its output script, wrapped in P2SH. */
  function TrivialWrap(c: Crypto): Bytes { P2shScript(Hash160(c, ProgramScript(0, TrivialProgram(c)))) }

  /** The P2SH-wrapped spend of OP_1 is refused as an unexpected witness when WITNESS is set
      without P2SH. The one thing asked of the hash is that the program is not a string of
      zeros, which evaluation would read as false. */
  lemma WrapBreaksWitness(env: Env)
    requires env.sv == Base && VerifyWitness in env.flags && VerifyP2sh !in env.flags
    requires CastToBool(TrivialProgram(env.crypto))
    ensures var scriptSig := Encode(DirectPush(ProgramScript(0, TrivialProgram(env.crypto))));
            && VerifyScript(env.(flags := env.flags + {VerifyP2sh}), scriptSig, TrivialWrap(env.crypto), [[0x51]]).Ok?
            && VerifyScript(env, scriptSig, TrivialWrap(env.crypto), [[0x51]]).Err?
  {
    hide VerifyScript, SpendV0, P2shScript, ProgramScript, Encode, CastToBool;
    var g := env.(flags := env.flags + {VerifyP2sh});
    var program := TrivialProgram(env.crypto);
    WrappedV0(g, program, [[0x51]]);
    TrivialScript(g);
    RedeemSize(program);
    UnexpectedWitness(env, ProgramScript(0, program));
  }

  lemma TrivialScript(g: Env)
    requires CastToBool(TrivialProgram(g.crypto))
    ensures SpendV0(g, [[0x51]], TrivialProgram(g.crypto)).Ok?
  {
    hide EvalResult;
    var e := g.(sv := WitnessV0);
    EvalOne(e, FRESH_EXEC_DATA);
    assert Pop([[0x51]]) == [] && Last([[0x51]]) == [0x51];
    TrueIsTrue();
  }

  lemma EvalOne(env: Env, ed: ExecData)
    requires env.sv == WitnessV0
    ensures EvalResult(env, [0x51], [], ed) == Ok(Evaluated([[1]], After(ed)))
  {
    hide Step;
    var s: Bytes := [0x51];
    assert s[1..1] == [];
    assert ReadAt(s, 0) == Some(Token(Instr(0x51, []), 1));
    var st := Initial([], ed);
    StepOne(env, s, st);
    assert st.stack + [[1]] == [[1]];
    assert Run(env, s, 0, st) == Run(env, s, 1, st.(stack := [[1]], pos := 1));
  }

  lemma UnexpectedWitness(env: Env, redeem: Bytes)
    requires env.sv == Base && 2 <= |redeem| <= 75
    requires VerifyWitness in env.flags && VerifyP2sh !in env.flags
    ensures VerifyScript(env, Encode(DirectPush(redeem)), P2shScript(Hash160(env.crypto, redeem)), [[0x51]]).Err?
  {
    hide EvalResult, PushOnly, WitnessProgram, P2shScript, Encode, IsP2sh;
    var hash := Hash160(env.crypto, redeem);
    EvalSinglePush(env, redeem, FRESH_EXEC_DATA);
    EvalP2sh(env, hash, redeem, After(FRESH_EXEC_DATA));
    P2shTokens(hash);
  }

  /** The exact condition, for every checker and for all hashes that do not take OP_1 to
      zeros: a flag set is only ever restricted by adding flags if and only if it is nested. */
  lemma OnlyRestrictsIffNested(f: Flags, checker: Checker, crypto: Crypto)
    requires CastToBool(TrivialProgram(crypto))
    ensures OnlyRestricts(f, checker, crypto) <==> Nested(f)
  {
    hide VerifyScript, CastToBool;
    var env := Env(f, checker, crypto, Base);
    if Nested(f) {
      forall g: Flags, scriptSig: Bytes, scriptPubKey: Bytes, wit: Stack
        | f <= g && VerifyScript(Env(g, checker, crypto, Base), scriptSig, scriptPubKey, wit).Ok?
        ensures VerifyScript(env, scriptSig, scriptPubKey, wit).Ok?
      {
        VerifyRelaxed(env, Env(g, checker, crypto, Base), scriptSig, scriptPubKey, wit);
      }
    } else if VerifyCleanStack in f && VerifyWitness !in f {
      AnchorBreaksCleanStack(env);
    } else {
      WrapBreaksWitness(env);
    }
  }
}
