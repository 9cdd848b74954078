/** verify_script and the witness functions in the form they run, proved to give the verdict
    of the specification without reaching a failing assertion. */
module Verifier {
  import opened ScriptTypes
  import opened ScriptNum
  import opened Condition
  import opened Grammar
  import opened Encoding
  import opened Machine
  import opened Bounds
  import opened Wire
  import opened VerifySpec
  import opened Engine

  function WitnessSize(wit: Stack): nat { |CompactSize(|wit|)| + SerializedSize(wit) }

  /** A witness comes from a transaction: its serialized size, and with it every length in
      it, is that of an object in memory, and item sizes fit tapscript's 32-bit counter. */
  predicate FromTransaction(wit: Stack) {
    |wit| <= MAX_LENGTH && Within(NO_FALSE, wit) && WitnessSize(wit) + VALIDATION_WEIGHT_OFFSET <= MAX_LENGTH
  }

  lemma {:induction false} SizeGrows(wit: Stack, i: nat)
    requires i <= |wit|
    ensures SerializedSize(wit[..i]) <= SerializedSize(wit)
  {
    if i < |wit| {
      SizeGrows(Pop(wit), i);
      assert Pop(wit)[..i] == wit[..i];
    } else {
      assert wit[..i] == wit;
    }
  }

  method SerializedWitnessSize(wit: Stack) returns (size: U64)
    requires WitnessSize(wit) <= MAX_LENGTH
    ensures size == WitnessSize(wit)
  {
    hide CompactSize;
    size := |CompactSize(|wit|)|;
    var i := 0;
    while i < |wit|
      invariant 0 <= i <= |wit|
      invariant size == |CompactSize(|wit|)| + SerializedSize(wit[..i])
    {
      assert Pop(wit[..i + 1]) == wit[..i] && Last(wit[..i + 1]) == wit[i];
      SizeGrows(wit, i + 1);
      size := size + |CompactSize(|wit[i]|)|;
      size := size + |wit[i]|;
      i := i + 1;
    }
    assert wit[..|wit|] == wit;
  }

  method TaprootMerkleRoot(c: Crypto, control: Bytes, leaf: Hash32) returns (k: Hash32)
    requires ControlSize(control)
    ensures k == TaprootRoot(c, control[CONTROL_BASE..], leaf)
  {
    hide TapBranchHash;
    var pathLen := (|control| - CONTROL_BASE) / CONTROL_NODE;
    k := leaf;
    assert control[CONTROL_BASE + CONTROL_NODE * 0..] == control[CONTROL_BASE..];
    var i := 0;
    while i < pathLen
      invariant 0 <= i <= pathLen
      invariant TaprootRoot(c, control[CONTROL_BASE + CONTROL_NODE * i..], k) ==
                TaprootRoot(c, control[CONTROL_BASE..], leaf)
    {
      var offset := CONTROL_BASE + CONTROL_NODE * i;
      var node := control[offset..offset + 32];
      ghost var rest := control[offset..];
      assert rest[..CONTROL_NODE] == node;
      assert rest[CONTROL_NODE..] == control[CONTROL_BASE + CONTROL_NODE * (i + 1)..];
      k := TapBranchHash(c, k, node);
      i := i + 1;
    }
    assert control[CONTROL_BASE + CONTROL_NODE * pathLen..] == [];
  }

  method ExecuteWitnessScript(env: Env, initial: Stack, script: Bytes, ed: ExecData) returns (r: Result<Unit>)
    requires env.sv == WitnessV0 || (env.sv == Tapscript && Weighted(ed) && |script| <= NO_FALSE)
    requires |initial| <= MAX_LENGTH
    ensures r == ExecuteWitness(env, initial, script, ed)
  {
    hide HasOpSuccess, Instrs, Eval, CastToBool;
    var stack := initial;
    if env.sv == Tapscript {
      var success := ScanForOpSuccess(script);
      if success {
        if VerifyDiscourageOpSuccess in env.flags { return Err(DiscourageOpSuccess); }
        return Ok(Unit);
      }
      if |stack| > MAX_STACK_SIZE { return Err(StackSize); }
    }
    var i := 0;
    while i < |stack|
      invariant 0 <= i <= |stack|
      invariant forall j :: 0 <= j < i ==> |stack[j]| <= MAX_SCRIPT_ELEMENT_SIZE
    {
      if |stack[i]| > MAX_SCRIPT_ELEMENT_SIZE { return Err(PushSize); }
      i := i + 1;
    }
    var e, end, _, _ := EvalScript(env, script, stack, ed);
    if e.Err? { return Err(e.error); }
    stack := end;
    if |stack| != 1 { return Err(CleanStack); }
    var top := CastToBoolScan(stack[0]);
    if !top { return Err(EvalFalse); }
    return Ok(Unit);
  }

  method VerifyTaprootMethod(env: Env, wit: Stack, program: Bytes) returns (r: Result<Unit>)
    requires |program| == 32 && FromTransaction(wit)
    ensures r == VerifyTaprootSpend(env, wit, program)
  {
    hide ExecuteWitness, TaprootRoot, TapleafHash, SerializedSize;
    if VerifyTaproot !in env.flags { return Ok(Unit); }
    if wit == [] { return Err(WitnessProgramWitnessEmpty); }
    var ed := FRESH_EXEC_DATA;
    var stack := wit;
    if |stack| >= 2 && Last(stack) != [] && Last(stack)[0] == 0x50 {
      var annex := Last(stack);
      stack := Pop(stack);
      ed := ed.(annexHash := env.crypto.sha256(CompactSize(|annex|) + annex));
      ed := ed.(annexPresent := true);
    } else {
      ed := ed.(annexPresent := false);
    }
    ed := ed.(annexInit := true);
    assert ed == AnnexData(env.crypto, wit);
    if |stack| == 1 {
      var ok :- CheckSchnorr(env, stack[0], program, Taproot, ed);
      if ok { return Ok(Unit); } else { return Err(SchnorrSig); }
    }
    var control := Last(stack);
    stack := Pop(stack);
    var script := Last(stack);
    stack := Pop(stack);
    if |control| < CONTROL_BASE || |control| > CONTROL_MAX || (|control| - CONTROL_BASE) % CONTROL_NODE != 0 {
      return Err(TaprootWrongControlSize);
    }
    var leafVersion: Byte := control[0] - control[0] % 2;
    var leaf := TapleafHash(env.crypto, leafVersion, script);
    ed := ed.(tapleafHash := leaf);
    var root := TaprootMerkleRoot(env.crypto, control, leaf);
    if !env.crypto.tweaks(control[1..33], program, root, control[0] % 2 == 1) { return Err(WitnessProgramMismatch); }
    ed := ed.(tapleafHashInit := true);
    if leafVersion == 0xc0 {
      var size := SerializedWitnessSize(wit);
      var weight: Int64 := size + VALIDATION_WEIGHT_OFFSET;
      ed := ed.(weightLeft := weight);
      ed := ed.(weightInit := true);
      r := ExecuteWitnessScript(env.(sv := Tapscript), stack, script, ed);
      return;
    }
    if VerifyDiscourageUpgradableTaprootVersion in env.flags { return Err(DiscourageUpgradableTaprootVersion); }
    return Ok(Unit);
  }

  method VerifyWitnessProgram(env: Env, wit: Stack, p: Program, isP2sh: bool) returns (r: Result<Unit>)
    requires FromTransaction(wit)
    ensures r == VerifyProgram(env, wit, p, isP2sh)
  {
    hide ExecuteWitness, VerifyTaprootSpend;
    var ed := FRESH_EXEC_DATA;
    if p.version == 0 {
      if |p.program| == 32 {
        if wit == [] { return Err(WitnessProgramWitnessEmpty); }
        var script := wit[|wit| - 1];
        var stack := wit[..|wit| - 1];
        if env.crypto.sha256(script) != p.program { return Err(WitnessProgramMismatch); }
        r := ExecuteWitnessScript(env.(sv := WitnessV0), stack, script, ed);
        return;
      } else if |p.program| == 20 {
        if |wit| != 2 { return Err(WitnessProgramMismatch); }
        var script: Bytes := [];
        script := script + [0x76];
        script := script + [0xa9];
        script := script + [0x14];
        script := script + p.program;
        script := script + [0x88];
        script := script + [0xac];
        assert script == KeyHashScript(p.program);
        r := ExecuteWitnessScript(env.(sv := WitnessV0), wit, script, ed);
        return;
      }
      return Err(WitnessProgramWrongLength);
    } else if p.version == 1 && |p.program| == 32 && !isP2sh {
      r := VerifyTaprootMethod(env, wit, p.program);
      return;
    } else if !isP2sh && p.version == 1 && p.program == [0x4e, 0x73] {
      return Ok(Unit);
    }
    if VerifyDiscourageUpgradableWitnessProgram in env.flags { return Err(DiscourageUpgradableWitnessProgram); }
    return Ok(Unit);
  }

  /** The redeem part, with the stack the scriptSig left; its assertion is that this stack
      is not empty. */
  method RedeemScript(env: Env, scriptSig: Bytes, wit: Stack, saved: Stack, ed: ExecData)
    returns (r: Result<bool>, stack: Stack)
    requires FromTransaction(wit) && env.sv == Base && saved != [] && Fits(saved) && |saved| <= MAX_STACK_SIZE
    ensures match RedeemSpend(env, scriptSig, wit, saved, ed)
            case Err(e) => r == Err(e)
            case Ok(s) => r == Ok(s.hadWitness) && stack == s.stack
  {
    hide Eval, CastToBool, PushOnly, VerifyProgram, WitnessProgram, Encode;
    stack := saved;
    var pushOnly := IsPushOnly(scriptSig);
    if !pushOnly { return Err(SigPushOnly), stack; }
    var redeem := Last(stack);
    stack := Pop(stack);
    var e, end, _, _ := EvalScript(env, redeem, stack, ed);
    if e.Err? { return Err(e.error), stack; }
    stack := end;
    if stack == [] { return Err(EvalFalse), stack; }
    var top := CastToBoolScan(Last(stack));
    if !top { return Err(EvalFalse), stack; }
    var had := false;
    if VerifyWitness in env.flags {
      var p := WitnessProgram(redeem);
      if p.Some? {
        had := true;
        var expected := BuildSinglePush(redeem);
        if scriptSig != expected { return Err(WitnessMalleatedP2sh), stack; }
        var v := VerifyWitnessProgram(env, wit, p.value, true);
        if v.Err? { return Err(v.error), stack; }
        stack := stack[..1];
      }
    }
    return Ok(had), stack;
  }

  method VerifyScriptMethod(env: Env, scriptSig: Bytes, scriptPubKey: Bytes, wit: Stack) returns (r: Result<Unit>)
    requires FromTransaction(wit) && env.sv == Base
    ensures r == VerifyScript(env, scriptSig, scriptPubKey, wit)
  {
    hide Eval, CastToBool, PushOnly, VerifyProgram, WitnessProgram, RedeemSpend, IsP2sh;
    var had := false;
    var pushOnly := IsPushOnly(scriptSig);
    if VerifySigPushOnly in env.flags && !pushOnly { return Err(SigPushOnly); }
    var stack: Stack := [];
    var e, end, ed, _ := EvalScript(env, scriptSig, stack, FRESH_EXEC_DATA);
    if e.Err? { return Err(e.error); }
    EvalKeepsLimits(env, scriptSig, [], FRESH_EXEC_DATA);
    stack := end;
    var copy := stack;
    ghost var saved := Evaluated(stack, ed);
    ghost var n: nat;
    e, stack, ed, n := EvalScript(env, scriptPubKey, stack, ed);
    if e.Err? { return Err(e.error); }
    if stack == [] { return Err(EvalFalse); }
    var top := CastToBoolScan(Last(stack));
    if !top { return Err(EvalFalse); }
    ghost var full := stack;
    if VerifyWitness in env.flags {
      var p := WitnessProgram(scriptPubKey);
      if p.Some? {
        had := true;
        if scriptSig != [] { return Err(WitnessMalleated); }
        var v := VerifyWitnessProgram(env, wit, p.value, false);
        if v.Err? { return Err(v.error); }
        stack := stack[..1];
      }
    }
    assert BareSpend(env, scriptSig, scriptPubKey, wit, full) == Ok(Spent(had, stack));
    P2shNeedsItem(env, scriptPubKey, saved);
    if VerifyP2sh in env.flags && IsP2sh(scriptPubKey) {
      assert copy != [];   // the assertion before the redeem script
      var redeemed, left := RedeemScript(env, scriptSig, wit, copy, ed);
      if redeemed.Err? { return Err(redeemed.error); }
      stack := left;
      had := had || redeemed.value;
    }
    assert Spend(env, scriptSig, scriptPubKey, wit, saved) == Ok(Spent(had, stack));
    if VerifyCleanStack in env.flags {
      if |stack| != 1 { return Err(CleanStack); }
    }
    if VerifyWitness in env.flags {
      if !had && wit != [] { return Err(WitnessUnexpected); }
    }
    return Ok(Unit);
  }
}
