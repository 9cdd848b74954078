/** What acceptance says about the scripts themselves: they parse. */
module Acceptance {
  import opened ScriptTypes
  import opened Grammar
  import opened Machine
  import opened Bounds
  import opened VerifySpec

  /** A run that ends reads every instruction to the end, and wherever it stands the code
      that signatures sign starts at an instruction boundary. */
  lemma {:induction false} RunParses(env: Env, script: Bytes, pc: nat, st: State)
    requires env.sv != Taproot && Budgeted(env, st) && st.codeStart <= |script| && pc <= |script|
    requires Run(env, script, pc, st).Next?
    ensures Parses(script, pc)
    ensures Parses(script, st.codeStart) ==>
              forall s :: s in Visited(env, script, pc, st) ==> s.codeStart <= |script| && Parses(script, s.codeStart)
    decreases |script| - pc
  {
    hide Step, HeaderFits, Target;
    if pc < |script| {
      var t := ReadAt(script, pc).value;
      StepFrame(env, script, t, st);
      RunParses(env, script, t.next, Step(env, script, t, st).st);
    }
  }

  /** In an accepted evaluation the script parses, and so does the signed code at every
      point of it, so deleting a signature from it is a filter on instructions. */
  lemma AcceptedCodeParses(env: Env, script: Bytes, stack: Stack, ed: ExecData)
    requires env.sv != Taproot && (env.sv == Tapscript ==> ed.weightInit)
    requires Eval(env, script, stack, ed).Next?
    ensures Parses(script, 0)
    ensures forall s :: s in Visited(env, script, 0, Initial(stack, ed)) ==>
              s.codeStart <= |script| && Parses(script[s.codeStart..], 0)
  {
    hide Run, Visited, Parses;
    var start := Initial(stack, ed);
    RunParses(env, script, 0, start);
    forall s | s in Visited(env, script, 0, start)
      ensures s.codeStart <= |script| && Parses(script[s.codeStart..], 0)
    {
      Suffix(script, s.codeStart, s.codeStart);
    }
  }

  /** A witness script that is accepted parses, unless it is a tapscript with an OP_SUCCESS
      before the point where it stops parsing. */
  lemma WitnessScriptParses(env: Env, stack: Stack, script: Bytes, ed: ExecData)
    requires env.sv == WitnessV0 || (env.sv == Tapscript && ed.weightInit)
    requires ExecuteWitness(env, stack, script, ed).Ok?
    ensures Parses(script, 0) || (env.sv == Tapscript && HasOpSuccess(Instrs(script, 0)))
  {
    hide Eval, Parses, HasOpSuccess, Instrs, Visited;
    if !(env.sv == Tapscript && HasOpSuccess(Instrs(script, 0))) {
      AcceptedCodeParses(env, script, stack, ed);
    }
  }

  /** An accepted spend has a scriptSig and a scriptPubKey that parse, and under P2SH a
      redeem script that does: the last item the scriptSig pushed. */
  lemma SpendScriptsParse(env: Env, scriptSig: Bytes, scriptPubKey: Bytes, wit: Stack)
    requires env.sv == Base && VerifyScript(env, scriptSig, scriptPubKey, wit).Ok?
    ensures Parses(scriptSig, 0) && Parses(scriptPubKey, 0)
    ensures VerifyP2sh in env.flags && IsP2sh(scriptPubKey) ==>
              && EvalResult(env, scriptSig, [], FRESH_EXEC_DATA).Ok?
              && var saved := EvalResult(env, scriptSig, [], FRESH_EXEC_DATA).value.stack;
                 saved != [] && Parses(Last(saved), 0)
  {
    hide Eval, Parses, BareSpend, WitnessPart, PushOnly, Visited, IsP2sh;
    AcceptedCodeParses(env, scriptSig, [], FRESH_EXEC_DATA);
    var saved := EvalResult(env, scriptSig, [], FRESH_EXEC_DATA).value;
    AcceptedCodeParses(env, scriptPubKey, saved.stack, saved.exec);
    if VerifyP2sh in env.flags && IsP2sh(scriptPubKey) {
      var end := EvalResult(env, scriptPubKey, saved.stack, saved.exec).value;
      AcceptedCodeParses(env, Last(saved.stack), Pop(saved.stack), end.exec);
    }
  }

  /** The arguments, script and control block of a taproot witness, its annex taken off. */
  function WithoutAnnex(wit: Stack): Stack { if HasAnnex(wit) then Pop(wit) else wit }

  /** What acceptance says of the script a witness reveals. A v0 script parses. A script on a
      taproot path parses unless its leaf version is not tapscript's or an OP_SUCCESS stands
      before the fault. A program of another version or size reveals no script, and neither
      does a taproot program inside P2SH or without its flag. */
  predicate RevealedParses(env: Env, wit: Stack, p: Program, isP2sh: bool) {
    && (p.version == 0 && |p.program| == 32 ==> wit != [] && Parses(Last(wit), 0))
    && (p.version == 1 && |p.program| == 32 && !isP2sh && VerifyTaproot in env.flags ==>
          var stack := WithoutAnnex(wit);
          |stack| >= 2 ==>
            && var control, script := Last(stack), Last(Pop(stack));
            && control != []
            && (control[0] - control[0] % 2 != 0xc0 || HasOpSuccess(Instrs(script, 0)) || Parses(script, 0)))
  }

  lemma ProgramRevealsParsing(env: Env, wit: Stack, p: Program, isP2sh: bool)
    requires VerifyProgram(env, wit, p, isP2sh).Ok?
    ensures RevealedParses(env, wit, p, isP2sh)
  {
    hide ExecuteWitness, Parses, HasOpSuccess, Instrs, TaprootCommitment, TapleafHash, SerializedSize, Wire.CompactSize;
    if p.version == 0 && |p.program| == 32 {
      WitnessScriptParses(env.(sv := WitnessV0), Pop(wit), Last(wit), FRESH_EXEC_DATA);
    } else if p.version == 1 && |p.program| == 32 && !isP2sh && VerifyTaproot in env.flags {
      var stack := WithoutAnnex(wit);
      if |stack| >= 2 && Last(stack)[0] - Last(stack)[0] % 2 == 0xc0 {
        var script := Last(Pop(stack));
        var leaf := TapleafHash(env.crypto, 0xc0, script);
        var weight := |Wire.CompactSize(|wit|)| + SerializedSize(wit) + VALIDATION_WEIGHT_OFFSET;
        WitnessScriptParses(env.(sv := Tapscript), Pop(Pop(stack)), script, AnnexData(env.crypto, wit).(
          tapleafHash := leaf, tapleafHashInit := true, weightLeft := weight, weightInit := true));
      }
    }
  }

  /** In an accepted spend that looks at the witness, what the witness reveals parses, with
      those exceptions: of the output's own program, and of the redeem script's. */
  lemma SpendWitnessParses(env: Env, scriptSig: Bytes, scriptPubKey: Bytes, wit: Stack)
    requires env.sv == Base && VerifyWitness in env.flags && VerifyScript(env, scriptSig, scriptPubKey, wit).Ok?
    ensures WitnessProgram(scriptPubKey).Some? ==> RevealedParses(env, wit, WitnessProgram(scriptPubKey).value, false)
    ensures VerifyP2sh in env.flags && IsP2sh(scriptPubKey) ==>
              && EvalResult(env, scriptSig, [], FRESH_EXEC_DATA).Ok?
              && var saved := EvalResult(env, scriptSig, [], FRESH_EXEC_DATA).value.stack;
              && saved != []
              && (WitnessProgram(Last(saved)).Some? ==>
                 RevealedParses(env, wit, WitnessProgram(Last(saved)).value, true))
  {
    hide Eval, PushOnly, IsP2sh, VerifyProgram, WitnessProgram, RevealedParses, Encode;
    if WitnessProgram(scriptPubKey).Some? {
      ProgramRevealsParsing(env, wit, WitnessProgram(scriptPubKey).value, false);
    }
    if VerifyP2sh in env.flags && IsP2sh(scriptPubKey) {
      var saved := EvalResult(env, scriptSig, [], FRESH_EXEC_DATA).value.stack;
      if WitnessProgram(Last(saved)).Some? {
        ProgramRevealsParsing(env, wit, WitnessProgram(Last(saved)).value, true);
      }
    }
  }
}
