/** eval_script as a loop over mutable state, proved to compute the machine's runs. */
module Engine {
  import opened ScriptTypes
  import opened ScriptNum
  import opened Condition
  import opened Grammar
  import opened Encoding
  import opened Signatures
  import opened Machine
  import opened Bounds

  // ---- Stack shuffles, done with swaps, removals and insertions ------------------------

  function Swap(s: Stack, i: nat, j: nat): Stack
    requires i < |s| && j < |s|
  {
    s[i := s[j]][j := s[i]]
  }

  function RemoveAt(s: Stack, i: nat): Stack
    requires i < |s|
  {
    s[..i] + s[i + 1..]
  }

  function InsertAt(s: Stack, i: nat, v: Bytes): Stack
    requires i <= |s|
  {
    s[..i] + [v] + s[i..]
  }

  lemma Rearranged(e: Effect, stack: Stack, s: Stack)
    requires InRange(e) && |stack| >= e.takes
    requires var base := |stack| - e.takes;
             && |s| == base + |e.leaves| && s[..base] == stack[..base]
             && forall k :: 0 <= k < |e.leaves| ==> s[base + k] == stack[base + e.leaves[k]]
    ensures Rearrange(e, stack) == Ok(s)
  {
    var base := |stack| - e.takes;
    var r := Rearrange(e, stack).value;
    assert forall k :: base <= k < |s| ==> r[k] == s[base + (k - base)];
    assert r == s;
  }

  method Shuffle(op: Byte, start: Stack) returns (r: Result<Stack>)
    requires StackEffect(op).Some?
    ensures InRange(StackEffect(op).value) && r == Rearrange(StackEffect(op).value, start)
  {
    EffectsInRange(op);
    var stack := start;
    var len := |stack|;
    if op == 0x6d {         // 2DROP
      if len < 2 { return Err(InvalidStackOperation); }
      stack := Pop(stack);
      stack := Pop(stack);
      Rearranged(Effect(2, []), start, stack);
    } else if op == 0x6e {  // 2DUP
      if len < 2 { return Err(InvalidStackOperation); }
      var vch1, vch2 := stack[len - 2], stack[len - 1];
      stack := stack + [vch1];
      stack := stack + [vch2];
      Rearranged(Effect(2, [0, 1, 0, 1]), start, stack);
    } else if op == 0x6f {  // 3DUP
      if len < 3 { return Err(InvalidStackOperation); }
      var vch1, vch2, vch3 := stack[len - 3], stack[len - 2], stack[len - 1];
      stack := stack + [vch1];
      stack := stack + [vch2];
      stack := stack + [vch3];
      Rearranged(Effect(3, [0, 1, 2, 0, 1, 2]), start, stack);
    } else if op <= 0x72 {
      r := ShufflePairs(op, start);
      return;
    } else {
      r := ShuffleSmall(op, start);
      return;
    }
    return Ok(stack);
  }

  method ShufflePairs(op: Byte, start: Stack) returns (r: Result<Stack>)
    requires 0x70 <= op <= 0x72
    ensures InRange(StackEffect(op).value) && r == Rearrange(StackEffect(op).value, start)
  {
    EffectsInRange(op);
    var stack := start;
    var len := |stack|;
    if op == 0x70 {  // 2OVER
      if len < 4 { return Err(InvalidStackOperation); }
      var vch1, vch2 := stack[len - 4], stack[len - 3];
      stack := stack + [vch1];
      stack := stack + [vch2];
      Rearranged(Effect(4, [0, 1, 2, 3, 0, 1]), start, stack);
    } else if op == 0x71 {  // 2ROT
      if len < 6 { return Err(InvalidStackOperation); }
      var vch1, vch2 := stack[len - 6], stack[len - 5];
      stack := stack[..len - 6] + stack[len - 4..];
      stack := stack + [vch1];
      stack := stack + [vch2];
      Rearranged(Effect(6, [2, 3, 4, 5, 0, 1]), start, stack);
    } else {                //  2SWAP
      if len < 4 { return Err(InvalidStackOperation); }
      stack := Swap(stack, len - 4, len - 2);
      stack := Swap(stack, len - 3, len - 1);
      Rearranged(Effect(4, [2, 3, 0, 1]), start, stack);
    }
    return Ok(stack);
  }

  method ShuffleSmall(op: Byte, start: Stack) returns (r: Result<Stack>)
    requires StackEffect(op).Some? && 0x75 <= op <= 0x7d
    ensures InRange(StackEffect(op).value) && r == Rearrange(StackEffect(op).value, start)
  {
    EffectsInRange(op);
    var stack := start;
    var len := |stack|;
    if op == 0x75 {         // DROP
      if len < 1 { return Err(InvalidStackOperation); }
      stack := Pop(stack);
      Rearranged(Effect(1, []), start, stack);
    } else if op == 0x76 {  // DUP
      if len < 1 { return Err(InvalidStackOperation); }
      stack := stack + [Last(stack)];
      Rearranged(Effect(1, [0, 0]), start, stack);
    } else if op == 0x77 {  // NIP
      if len < 2 { return Err(InvalidStackOperation); }
      stack := RemoveAt(stack, len - 2);
      Rearranged(Effect(2, [1]), start, stack);
    } else if op == 0x78 {  // OVER
      if len < 2 { return Err(InvalidStackOperation); }
      stack := stack + [stack[len - 2]];
      Rearranged(Effect(2, [0, 1, 0]), start, stack);
    } else if op == 0x7b {  // ROT
      if len < 3 { return Err(InvalidStackOperation); }
      stack := Swap(stack, len - 3, len - 2);
      stack := Swap(stack, len - 2, len - 1);
      Rearranged(Effect(3, [1, 2, 0]), start, stack);
    } else if op == 0x7c {  // SWAP
      if len < 2 { return Err(InvalidStackOperation); }
      stack := Swap(stack, len - 2, len - 1);
      Rearranged(Effect(2, [1, 0]), start, stack);
    } else {                // TUCK
      if len < 2 { return Err(InvalidStackOperation); }
      stack := InsertAt(stack, len - 2, Last(stack));
      Rearranged(Effect(2, [1, 0, 1]), start, stack);
    }
    return Ok(stack);
  }

  // ---- Arithmetic in 64-bit integers ---------------------------------------------------

  method ReadNum(env: Env, item: Bytes) returns (r: Result<Int64>)
    ensures r == Num(env, item)
    ensures r.Ok? ==> Abs(r.value) < 0x8000_0000
  {
    r := FromBytesChecked(item, VerifyMinimalData in env.flags, DEFAULT_MAX_NUM_SIZE);
    if r.Ok? { OperandBound(item); }
  }

  method Unary(op: Byte, bn: Int64) returns (v: Int64)
    requires IsUnary(op) && Abs(bn) < 0x8000_0000
    ensures v == UnaryValue(op, bn)
  {
    match op
    case 0x8b => v := bn + 1;
    case 0x8c => v := bn - 1;
    case 0x8f => v := 0 - bn;
    case 0x90 => if bn < 0 { v := 0 - bn; } else { v := bn; }
    case 0x91 => v := if bn == 0 then 1 else 0;
    case _    => v := if bn != 0 then 1 else 0;
  }

  method Binary(op: Byte, bn1: Int64, bn2: Int64) returns (v: Int64)
    requires IsBinary(op) && Abs(bn1) < 0x8000_0000 && Abs(bn2) < 0x8000_0000
    ensures v == BinaryValue(op, bn1, bn2)
  {
    match op
    case 0x93 => v := bn1 + bn2;
    case 0x94 => v := bn1 - bn2;
    case 0x9a => v := if bn1 != 0 && bn2 != 0 then 1 else 0;
    case 0x9b => v := if bn1 != 0 || bn2 != 0 then 1 else 0;
    case 0x9c => v := if bn1 == bn2 then 1 else 0;
    case 0x9d => v := if bn1 == bn2 then 1 else 0;
    case 0x9e => v := if bn1 != bn2 then 1 else 0;
    case 0x9f => v := if bn1 < bn2 then 1 else 0;
    case 0xa0 => v := if bn1 > bn2 then 1 else 0;
    case 0xa1 => v := if bn1 <= bn2 then 1 else 0;
    case 0xa2 => v := if bn1 >= bn2 then 1 else 0;
    case 0xa3 => if bn1 < bn2 { v := bn1; } else { v := bn2; }
    case _    => if bn1 > bn2 { v := bn1; } else { v := bn2; }
  }

  method Numeric(env: Env, op: Byte, start: Stack) returns (r: Result<Stack>)
    requires IsUnary(op) || IsBinary(op) || op == 0xa5
    ensures r == NumericOp(env, op, start)
  {
    hide FromBytes, Serialize, UnaryValue, BinaryValue, Decode;
    var stack := start;
    var len := |stack|;
    if IsUnary(op) {
      if len < 1 { return Err(InvalidStackOperation); }
      var bn :- ReadNum(env, Last(stack));
      var v := Unary(op, bn);
      stack := Pop(stack);
      var item := SerializeInt64(v);
      stack := stack + [item];
      return Ok(stack);
    }
    if IsBinary(op) {
      if len < 2 { return Err(InvalidStackOperation); }
      var bn2 :- ReadNum(env, stack[len - 1]);
      var bn1 :- ReadNum(env, stack[len - 2]);
      var v := Binary(op, bn1, bn2);
      stack := Pop(stack);
      stack := Pop(stack);
      var item := SerializeInt64(v);
      stack := stack + [item];
      assert Pop(stack) == start[..len - 2];
      if op == 0x9d {
        EqualityItem(v, bn1, bn2, op);
        var top := CastToBoolScan(Last(stack));
        if top { stack := Pop(stack); } else { return Err(NumEqualVerify); }
      }
      return Ok(stack);
    }
    if len < 3 { return Err(InvalidStackOperation); }
    var bn3 :- ReadNum(env, stack[len - 1]);
    var bn2 :- ReadNum(env, stack[len - 2]);
    var bn1 :- ReadNum(env, stack[len - 3]);
    var within := bn2 <= bn1 && bn1 < bn3;
    stack := Pop(stack);
    stack := Pop(stack);
    stack := Pop(stack);
    assert stack == start[..len - 3];
    stack := stack + [if within then STACK_TRUE else STACK_FALSE];
    return Ok(stack);
  }

  /** NUMEQUALVERIFY pushes the comparison and reads it back as a truth value. */
  lemma EqualityItem(v: int, a: int, b: int, op: Byte)
    requires op == 0x9d && v == BinaryValue(op, a, b)
    ensures CastToBool(Serialize(v)) <==> a == b
  {
    DecodeSerialize(v);
    CastToBoolIsNonZero(Serialize(v));
  }

  /** Lengths fit the 64-bit integers they are cast to. */
  predicate Addressable(stack: Stack) {
    |stack| <= MAX_LENGTH && Within(MAX_LENGTH, stack)
  }

  const MAX_LENGTH := 0x7FFF_FFFF_FFFF_FFFF

  // ---- The other stack opcodes ---------------------------------------------------------

  method LockTime(env: Env, stack: Stack) returns (r: Result<Unit>)
    ensures r == LockTimeOp(env, stack)
  {
    if VerifyCheckLockTimeVerify in env.flags {
      if stack == [] { return Err(InvalidStackOperation); }
      var n :- FromBytesChecked(Last(stack), VerifyMinimalData in env.flags, 5);
      if n < 0 { return Err(NegativeLocktime); }
      if !env.checker.lockTime(n) { return Err(UnsatisfiedLocktime); }
    }
    return Ok(Unit);
  }

  method Sequence(env: Env, stack: Stack) returns (r: Result<Unit>)
    ensures r == SequenceOp(env, stack)
  {
    if VerifyCheckSequenceVerify !in env.flags {
    } else {
      if stack == [] { return Err(InvalidStackOperation); }
      var n :- FromBytesChecked(Last(stack), VerifyMinimalData in env.flags, 5);
      if n < 0 { return Err(NegativeLocktime); }
      if (n / 0x8000_0000) % 2 != 0 {
      } else if !env.checker.sequence(n) {
        return Err(UnsatisfiedLocktime);
      }
    }
    return Ok(Unit);
  }

  method PickOrRoll(env: Env, op: Byte, start: Stack) returns (r: Result<Stack>)
    requires op == 0x79 || op == 0x7a
    ensures r == PickRoll(env, op == 0x7a, start)
  {
    hide FromBytes;
    var stack := start;
    if |stack| < 2 { return Err(InvalidStackOperation); }
    var v :- ReadNum(env, Last(stack));
    var n := GetInt(v);
    stack := Pop(stack);
    if n < 0 || n >= |stack| { return Err(InvalidStackOperation); }
    var len := |stack|;
    var vch := stack[len - n - 1];
    if op == 0x7a {
      stack := RemoveAt(stack, len - n - 1);
    }
    stack := stack + [vch];
    return Ok(stack);
  }

  method Plain(env: Env, op: Byte, start: Stack) returns (r: Result<Stack>)
    requires Addressable(start)
    ensures r == PlainOp(env, op, start)
  {
    hide FromBytes, Serialize, CastToBool;
    var stack := start;
    var len := |stack|;
    if op == 0x4f || 0x51 <= op <= 0x60 {
      var item := SerializeInt64(op - 0x50);
      stack := stack + [item];
    } else if op == 0x61 {
    } else if op == 0xb1 {
      var _ :- LockTime(env, stack);
    } else if op == 0xb2 {
      var _ :- Sequence(env, stack);
    } else if IsSpareNop(op) {
      if VerifyDiscourageUpgradableNops in env.flags { return Err(DiscourageUpgradableNops); }
    } else if op == 0x6a {
      return Err(OpReturn);
    } else if op == 0x74 {
      var item := SerializeInt64(|stack|);
      stack := stack + [item];
    } else if op == 0x79 || op == 0x7a {
      r := PickOrRoll(env, op, start);
      return;
    } else if op == 0x87 || op == 0x88 {
      if len < 2 { return Err(InvalidStackOperation); }
      var vch2 := Last(stack);
      stack := Pop(stack);
      var vch1 := Last(stack);
      stack := Pop(stack);
      assert stack == start[..len - 2];
      var equal := vch1 == vch2;
      stack := stack + [if equal then STACK_TRUE else STACK_FALSE];
      if op == 0x88 {
        if equal { stack := Pop(stack); } else { return Err(EqualVerify); }
        assert stack == start[..len - 2];
      }
    } else if op == 0x69 {
      if stack == [] { return Err(InvalidStackOperation); }
      var top := CastToBoolScan(Last(stack));
      if top { stack := Pop(stack); } else { return Err(Verify); }
    } else if op == 0x73 {
      if stack == [] { return Err(InvalidStackOperation); }
      var vch := Last(stack);
      var top := CastToBoolScan(vch);
      if top { stack := stack + [vch]; }
    } else if op == 0x82 {
      if stack == [] { return Err(InvalidStackOperation); }
      var item := SerializeInt64(|Last(stack)|);
      stack := stack + [item];
    } else {
      return Err(BadOpcode);
    }
    return Ok(stack);
  }

  method Data(env: Env, op: Byte, start: Stack) returns (r: Result<Stack>)
    requires Addressable(start)
    ensures r == DataOp(env, op, start)
  {
    hide StackEffect, NumericOp, PlainOp, Rearrange, HashValue;
    EffectsInRange(op);
    if StackEffect(op).Some? {
      r := Shuffle(op, start);
    } else if IsUnary(op) || IsBinary(op) || op == 0xa5 {
      r := Numeric(env, op, start);
    } else if IsHash(op) {
      if start == [] { return Err(InvalidStackOperation); }
      var stack := start;
      var data := Last(stack);
      stack := Pop(stack);
      stack := stack + [HashValue(env.crypto, op, data)];
      return Ok(stack);
    } else {
      r := Plain(env, op, start);
    }
  }

  // ---- Signatures ----------------------------------------------------------------------

  method BuildPattern(sig: Bytes) returns (pattern: Bytes)
    ensures pattern == PushPattern(sig)
  {
    hide Encode, DirectPush;
    pattern := [];
    var len := |sig|;
    if len <= 75 {
      pattern := pattern + [len];
    } else if len <= 255 {
      pattern := pattern + [0x4c];
      pattern := pattern + [len];
    } else if len <= 65535 {
      pattern := pattern + [0x4d];
      pattern := pattern + [len % 0x100];
      pattern := pattern + [len / 0x100];
    }
    pattern := pattern + sig;
  }

  method DeleteSignature(env: Env, code: Bytes, sig: Bytes) returns (r: Result<Bytes>)
    requires env.sv == Base
    ensures r == SignedCode(env, code, sig)
  {
    var pattern := BuildPattern(sig);
    var newCode, found := FindAndDelete(code, pattern);
    if found > 0 && VerifyConstScriptCode in env.flags { return Err(SigFindAndDelete); }
    return Ok(newCode);
  }

  method CheckSigPreTapscript(env: Env, scriptCode: Bytes, sig: Bytes, pubkey: Bytes)
    returns (r: Result<bool>, ghost checks: nat)
    ensures r == CheckSigEcdsa(env, scriptCode, sig, pubkey).result
    ensures checks == CheckSigEcdsa(env, scriptCode, sig, pubkey).checks
  {
    hide SignatureEncoding, PubkeyEncoding, Deleted, Matches;
    checks := 0;
    var code := scriptCode;
    if env.sv == Base {
      code :- DeleteSignature(env, code, sig);
    }
    var _ :- SignatureEncoding(env.flags, env.crypto, sig);
    var _ :- PubkeyEncoding(env.flags, env.sv, pubkey);
    var success := env.checker.ecdsa(sig, pubkey, code, env.sv);
    checks := 1;
    if !success && VerifyNullFail in env.flags && sig != [] { return Err(SigNullFail), checks; }
    return Ok(success), checks;
  }

  /** The weight is set and fits its signed 64-bit field, with room to be charged. */
  predicate Weighted(ed: ExecData) { ed.weightInit && 0 <= ed.weightLeft <= MAX_LENGTH }

  method CheckSigTapscript(env: Env, sig: Bytes, pubkey: Bytes, start: ExecData) returns (r: Result<bool>, ed: ExecData)
    requires Weighted(start)
    ensures match CheckSigSchnorr(env, start, sig, pubkey)
            case Err(e) => r == Err(e)
            case Ok((ok, ed')) => r == Ok(ok) && ed == ed'
  {
    ed := start;
    var success := sig != [];
    if success {
      var left: Int64 := ed.weightLeft - VALIDATION_WEIGHT_PER_SIGOP_PASSED;
      ed := ed.(weightLeft := left);
      if left < 0 { return Err(TapscriptValidationWeight), ed; }
    }
    if pubkey == [] {
      return Err(TapscriptEmptyPubkey), ed;
    } else if |pubkey| == 32 {
      if success {
        var ok :- CheckSchnorr(env, sig, pubkey, Tapscript, ed);
        if !ok { return Err(SchnorrSig), ed; }
      }
    } else if VerifyDiscourageUpgradablePubkeyType in env.flags {
      return Err(DiscourageUpgradablePubkeyType), ed;
    }
    return Ok(success), ed;
  }

  lemma TopDownTail(stack: Stack, start: nat, n: nat)
    requires start >= 1 && start + n <= |stack| + 1 && n > 0
    ensures var s := TopDown(stack, start, n);
            s[0] == stack[|stack| - start] && s[1..] == TopDown(stack, start + 1, n - 1)
  {
    var s := TopDown(stack, start, n);
    assert forall k :: 0 <= k < n - 1 ==> s[1..][k] == s[k + 1] == stack[|stack| - start - (k + 1)];
  }

  method DeleteSignatures(env: Env, start: Bytes, stack: Stack, isig: nat, nSigs: nat) returns (r: Result<Bytes>)
    requires isig >= 1 && isig + nSigs <= |stack| + 1
    ensures r == SignedCodeAll(env, start, TopDown(stack, isig, nSigs))
  {
    hide SignedCode, TopDown;
    var code := start;
    if env.sv == Base {
      var k := 0;
      while k < nSigs
        invariant 0 <= k <= nSigs
        invariant SignedCodeAll(env, start, TopDown(stack, isig, nSigs)) ==
                  SignedCodeAll(env, code, TopDown(stack, isig + k, nSigs - k))
      {
        TopDownTail(stack, isig + k, nSigs - k);
        code :- DeleteSignature(env, code, stack[|stack| - isig - k]);
        k := k + 1;
      }
    } else {
      NothingToDelete(env, code, TopDown(stack, isig, nSigs));
    }
    return Ok(code);
  }

  lemma {:induction false} NothingToDelete(env: Env, code: Bytes, sigs: seq<Bytes>)
    requires env.sv != Base
    ensures SignedCodeAll(env, code, sigs) == Ok(code)
    decreases |sigs|
  {
    if sigs != [] { NothingToDelete(env, code, sigs[1..]); }
  }

  method MatchSignatures(env: Env, code: Bytes, stack: Stack, firstSig: nat, firstKey: nat, sigs: nat, keys: nat)
    returns (r: Result<bool>, ghost checks: nat)
    requires firstSig >= 1 && firstSig + sigs <= |stack| + 1
    requires firstKey >= 1 && firstKey + keys <= |stack| + 1 && sigs <= keys
    ensures r == Greedy(env, code, TopDown(stack, firstSig, sigs), TopDown(stack, firstKey, keys)).result
    ensures checks == Greedy(env, code, TopDown(stack, firstSig, sigs), TopDown(stack, firstKey, keys)).checks
  {
    hide SignatureEncoding, PubkeyEncoding, TopDown;
    var isig, ikey, nSigs, nKeys := firstSig, firstKey, sigs, keys;
    var success := true;
    checks := 0;
    ghost var goal := Greedy(env, code, TopDown(stack, firstSig, sigs), TopDown(stack, firstKey, keys));
    while success && nSigs > 0
      invariant nSigs >= 0 && nKeys >= 0
      invariant isig >= 1 && isig + nSigs <= |stack| + 1 && ikey >= 1 && ikey + nKeys <= |stack| + 1
      invariant success <==> nSigs <= nKeys
      invariant var rest := Greedy(env, code, TopDown(stack, isig, nSigs), TopDown(stack, ikey, nKeys));
                goal == Checked(rest.result, checks + rest.checks)
      decreases nKeys
    {
      TopDownTail(stack, isig, nSigs);
      TopDownTail(stack, ikey, nKeys);
      var sig := stack[|stack| - isig];
      var pubkey := stack[|stack| - ikey];
      var _ :- SignatureEncoding(env.flags, env.crypto, sig);
      var _ :- PubkeyEncoding(env.flags, env.sv, pubkey);
      var ok := env.checker.ecdsa(sig, pubkey, code, env.sv);
      checks := checks + 1;
      if ok {
        isig := isig + 1;
        nSigs := nSigs - 1;
      }
      ikey := ikey + 1;
      nKeys := nKeys - 1;
      if nSigs > nKeys { success := false; }
    }
    return Ok(success), checks;
  }

  /** Pop all but the dummy; past the keys and counts, a failed check under NULLFAIL refuses
      any signature that is not empty. */
  method CleanUp(env: Env, start: Stack, success: bool, nKeys: nat, nSigs: nat) returns (r: Result<Stack>)
    requires nKeys + nSigs + 3 <= |start|
    ensures var sigs := TopDown(start, nKeys + 3, nSigs);
            r == if !success && VerifyNullFail in env.flags && !AllEmpty(sigs) then Err(SigNullFail)
                 else Ok(start[..|start| - nKeys - nSigs - 2])
  {
    var stack := start;
    var i := nKeys + nSigs + 3;
    var ikey2 := nKeys + 2;
    ghost var sigs := TopDown(start, nKeys + 3, nSigs);
    ghost var popped := 0;
    while i > 1
      invariant 1 <= i && popped + i == nKeys + nSigs + 3
      invariant stack == start[..|start| - popped]
      invariant ikey2 == if popped < nKeys + 2 then nKeys + 2 - popped else 0
      invariant !success && VerifyNullFail in env.flags ==>
                  forall k :: 0 <= k < popped - nKeys - 2 ==> sigs[k] == []
    {
      i := i - 1;
      if !success && VerifyNullFail in env.flags && ikey2 == 0 && stack[|stack| - 1] != [] {
        assert sigs[popped - nKeys - 2] != [];
        return Err(SigNullFail);
      }
      ikey2 := if ikey2 > 0 then ikey2 - 1 else 0;
      stack := Pop(stack);
      popped := popped + 1;
    }
    return Ok(stack);
  }

  method MultiSig(env: Env, scriptCode: Bytes, startOps: nat, start: Stack)
    returns (r: Result<bool>, stack: Stack, nOps: nat, ghost checks: nat)
    ensures match CheckMultiSig(env, scriptCode, startOps, start).result
            case Err(e) => r == Err(e)
            case Ok((ok, rest)) => r == Ok(ok) && stack == rest && nOps == MultiSigOps(env, startOps, start)
    ensures checks == CheckMultiSig(env, scriptCode, startOps, start).checks
  {
    hide FromBytes, SignedCodeAll, Greedy, TopDown;
    stack, nOps, checks := start, startOps, 0;
    var i := 1;
    if |stack| < i { return Err(InvalidStackOperation), stack, nOps, checks; }
    var keyNum :- ReadNum(env, stack[|stack| - i]);
    var nKeys := GetInt(keyNum);
    if nKeys < 0 || nKeys > MAX_PUBKEYS_PER_MULTISIG { return Err(PubkeyCount), stack, nOps, checks; }
    nOps := nOps + nKeys;
    if nOps > MAX_OPS_PER_SCRIPT { return Err(OpCount), stack, nOps, checks; }
    i := i + 1;
    var ikey := i;
    i := i + nKeys;
    if |stack| < i { return Err(InvalidStackOperation), stack, nOps, checks; }
    var sigNum :- ReadNum(env, stack[|stack| - i]);
    var nSigs := GetInt(sigNum);
    if nSigs < 0 || nSigs > nKeys { return Err(SigCount), stack, nOps, checks; }
    i := i + 1;
    var isig := i;
    i := i + nSigs;
    if |stack| < i { return Err(InvalidStackOperation), stack, nOps, checks; }
    var code :- DeleteSignatures(env, scriptCode, stack, isig, nSigs);
    var success: bool;
    success, checks :- MatchSignatures(env, code, stack, isig, ikey, nSigs, nKeys);
    stack :- CleanUp(env, stack, success, nKeys, nSigs);
    if VerifyNullDummy in env.flags && Last(stack) != [] { return Err(SigNullDummy), stack, nOps, checks; }
    stack := Pop(stack);
    return Ok(success), stack, nOps, checks;
  }

  // ---- The interpreter -----------------------------------------------------------------

  /** The local state of eval_script. `Abs` is the machine state it stands for; the ghost
      fields count signature checks. */
  class Interpreter {
    const env: Env
    const script: Bytes
    const vfExec: ConditionStack
    var stack: Stack
    var altstack: Stack
    var nOpCount: nat
    var pbegincodehash: nat
    var opcodePos: nat
    var execData: ExecData
    ghost var ecdsa: nat
    ghost var charged: nat

    ghost function Abs(): State
      reads this, vfExec
    {
      State(stack, altstack, vfExec.values, nOpCount, pbegincodehash, opcodePos, execData, ecdsa, charged)
    }

    ghost predicate Valid()
      reads this, vfExec
    {
      && vfExec.Valid()
      && env.sv != Taproot && (env.sv == Tapscript ==> Weighted(execData))
      && pbegincodehash <= |script|
      && |vfExec.values| <= opcodePos
    }

    constructor (env: Env, script: Bytes, stack: Stack, ed: ExecData)
      requires env.sv != Taproot && (env.sv == Tapscript ==> Weighted(ed))
      ensures Valid() && fresh(vfExec) && this.env == env && this.script == script
      ensures Abs() == Initial(stack, ed)
    {
      this.env, this.script, this.stack := env, script, stack;
      altstack, nOpCount, pbegincodehash, opcodePos := [], 0, 0, 0;
      execData := ed.(codeSeparatorPos := 0xFFFF_FFFF, codeSeparatorPosInit := true);
      ecdsa, charged := 0, 0;
      vfExec := new ConditionStack();
    }

    /** Outcome of one instruction against the specification. */
    ghost predicate Did(spec: Outcome, r: Result<Unit>)
      reads this, vfExec
    {
      match spec
      case Halt(e, n) => r == Err(e) && ecdsa == n
      case Next(st) => r == Ok(Unit) && Abs() == st && vfExec.Valid()
    }

    method Flow(op: Byte, fExec: bool) returns (r: Result<Unit>)
      requires Valid() && IsFlow(op) && |vfExec.values| < NO_FALSE
      requires fExec == AllTrue(vfExec.values)
      modifies this, vfExec
      ensures Did(Lift(FlowOp(env, op, old(Abs())), old(ecdsa)), r)
    {
      hide CastToBool;
      if op == 0x63 || op == 0x64 {
        var value := false;
        if fExec {
          if stack == [] { return Err(InvalidStackOperation); }
          var vch := Last(stack);
          if env.sv == Tapscript {
            if |vch| > 1 || (|vch| == 1 && vch[0] != 1) { return Err(TapscriptMinimalIf); }
          }
          if (env.sv == WitnessV0 && VerifyMinimalIf in env.flags)
             || (env.sv == Base && VerifyMinimalIfBase in env.flags) {
            if |vch| > 1 { return Err(MinimalIf); }
            if |vch| == 1 && vch[0] != 1 { return Err(MinimalIf); }
          }
          value := CastToBoolScan(vch);
          if op == 0x64 { value := !value; }
          stack := Pop(stack);
        }
        vfExec.PushBack(value);
      } else if op == 0x67 {
        var empty := vfExec.IsEmpty();
        if empty { return Err(UnbalancedConditional); }
        vfExec.ToggleTop();
      } else if op == 0x68 {
        var empty := vfExec.IsEmpty();
        if empty { return Err(UnbalancedConditional); }
        vfExec.PopBack();
      } else {
        return Err(BadOpcode);
      }
      return Ok(Unit);
    }

    method CheckSig(verify: bool) returns (r: Result<Unit>)
      requires Valid()
      modifies this
      ensures Did(CheckSigOp(env, script[old(pbegincodehash)..], verify, old(Abs())), r)
    {
      hide CheckSigEcdsa, CheckSigSchnorr;
      if |stack| < 2 { return Err(InvalidStackOperation); }
      var pubkey := Last(stack);
      var sig := stack[|stack| - 2];
      stack := stack[..|stack| - 2];
      if env.sv == Tapscript {
        r := CheckSigWeighed(sig, pubkey, verify);
      } else {
        r := CheckSigCounted(sig, pubkey, verify);
      }
    }

    method CheckSigWeighed(sig: Bytes, pubkey: Bytes, verify: bool) returns (r: Result<Unit>)
      requires Valid() && env.sv == Tapscript
      modifies this
      ensures match CheckSigSchnorr(env, old(execData), sig, pubkey)
              case Err(e) => r == Err(e) && ecdsa == old(ecdsa)
              case Ok((ok, ed)) =>
                match Finish(verify, ok, old(stack), CheckSigVerify)
                case Err(e) => r == Err(e) && ecdsa == old(ecdsa)
                case Ok(s) =>
                  && r == Ok(Unit)
                  && Abs() == old(Abs()).(stack := s, exec := ed, charged := old(charged) + if sig == [] then 0 else 1)
    {
      hide CheckSigSchnorr;
      var success: bool;
      success, execData :- CheckSigTapscript(env, sig, pubkey, execData);
      charged := charged + (if sig == [] then 0 else 1);
      r := PushVerdict(success, verify);
    }

    method CheckSigCounted(sig: Bytes, pubkey: Bytes, verify: bool) returns (r: Result<Unit>)
      requires Valid() && env.sv != Tapscript
      modifies this
      ensures var c := CheckSigEcdsa(env, script[old(pbegincodehash)..], sig, pubkey);
              match c.result
              case Err(e) => r == Err(e) && ecdsa == old(ecdsa) + c.checks
              case Ok(ok) =>
                match Finish(verify, ok, old(stack), CheckSigVerify)
                case Err(e) => r == Err(e) && ecdsa == old(ecdsa) + c.checks
                case Ok(s) => r == Ok(Unit) && Abs() == old(Abs()).(stack := s, ecdsa := old(ecdsa) + c.checks)
    {
      hide CheckSigEcdsa;
      var c, n := CheckSigPreTapscript(env, script[pbegincodehash..], sig, pubkey);
      ecdsa := ecdsa + n;
      var success :- c;
      r := PushVerdict(success, verify);
    }

    /** Push the verdict; the VERIFY form takes a true one off again and fails on a false one. */
    method PushVerdict(success: bool, verify: bool) returns (r: Result<Unit>)
      modifies this`stack
      ensures match Finish(verify, success, old(stack), CheckSigVerify)
              case Err(e) => r == Err(e)
              case Ok(s) => r == Ok(Unit) && stack == s
    {
      stack := stack + [if success then STACK_TRUE else STACK_FALSE];
      if verify {
        if success { stack := Pop(stack); } else { return Err(CheckSigVerify); }
      }
      return Ok(Unit);
    }

    method CheckSigAdd() returns (r: Result<Unit>)
      requires Valid()
      modifies this
      ensures Did(CheckSigAddOp(env, old(Abs())), r)
    {
      hide CheckSigSchnorr, FromBytes, Serialize;
      if env.sv == Base || env.sv == WitnessV0 { return Err(BadOpcode); }
      if |stack| < 3 { return Err(InvalidStackOperation); }
      var pubkey := Last(stack);
      stack := Pop(stack);
      var num :- ReadNum(env, Last(stack));
      stack := Pop(stack);
      var sig := Last(stack);
      stack := Pop(stack);
      assert stack == old(stack)[..|old(stack)| - 3];
      var success: bool;
      success, execData :- CheckSigTapscript(env, sig, pubkey, execData);
      charged := charged + (if sig == [] then 0 else 1);
      var item := SerializeInt64(num + (if success then 1 else 0));
      stack := stack + [item];
      return Ok(Unit);
    }

    method CheckMulti(verify: bool) returns (r: Result<Unit>)
      requires Valid()
      modifies this
      ensures Did(MultiSigOp(env, script[old(pbegincodehash)..], verify, old(Abs())), r)
    {
      hide CheckMultiSig, MultiSigOps;
      if env.sv == Tapscript { return Err(TapscriptCheckMultiSig); }
      var c, rest, ops, n := MultiSig(env, script[pbegincodehash..], nOpCount, stack);
      ecdsa := ecdsa + n;
      var success :- c;
      stack, nOpCount := rest, ops;
      stack := stack + [if success then STACK_TRUE else STACK_FALSE];
      if verify {
        if success { stack := Pop(stack); } else { return Err(CheckMultiSigVerify); }
      }
      return Ok(Unit);
    }

    /** The body of the match, for an opcode that is executed. */
    method Execute(op: Byte, next: nat, fExec: bool) returns (r: Result<Unit>)
      requires Valid() && Addressable(stack) && |vfExec.values| < NO_FALSE && next <= |script|
      requires fExec == AllTrue(vfExec.values)
      modifies this, vfExec
      ensures Did(ExecOp(env, script, next, op, old(Abs())), r)
    {
      hide CheckSigOp, CheckSigAddOp, MultiSigOp, FlowOp, DataOp;
      if IsFlow(op) {
        r := Flow(op, fExec);
      } else if op == 0x6b {
        if stack == [] { return Err(InvalidStackOperation); }
        altstack := altstack + [Last(stack)];
        stack := Pop(stack);
        return Ok(Unit);
      } else if op == 0x6c {
        if altstack == [] { return Err(InvalidAltstackOperation); }
        stack := stack + [Last(altstack)];
        altstack := Pop(altstack);
        return Ok(Unit);
      } else if op == OP_CODESEPARATOR {
        pbegincodehash := next;
        execData := execData.(codeSeparatorPos := opcodePos);
        return Ok(Unit);
      } else if op == 0xac || op == 0xad {
        r := CheckSig(op == 0xad);
      } else if op == 0xba {
        r := CheckSigAdd();
      } else if op == 0xae || op == 0xaf {
        r := CheckMulti(op == 0xaf);
      } else {
        var s :- Data(env, op, stack);
        stack := s;
        return Ok(Unit);
      }
    }

    /** One turn of the loop. */
    method Turn(i: Instr, next: nat) returns (r: Result<Unit>)
      requires Valid() && Addressable(stack) && opcodePos < NO_FALSE && next <= |script|
      modifies this, vfExec
      ensures Did(Step(env, script, Token(i, next), old(Abs())), r)
    {
      hide ExecOp, MinimalPush;
      var fExec := vfExec.AllTrueNow();
      var opcode := i.opcode;
      if |i.data| > MAX_SCRIPT_ELEMENT_SIZE { return Err(PushSize); }
      if env.sv == Base || env.sv == WitnessV0 {
        if opcode > OP_16 {
          nOpCount := nOpCount + 1;
          if nOpCount > MAX_OPS_PER_SCRIPT { return Err(OpCount); }
        }
      }
      if IsDisabled(opcode) { return Err(DisabledOpcode); }
      if opcode == OP_CODESEPARATOR && env.sv == Base && VerifyConstScriptCode in env.flags {
        return Err(OpCodeSeparator);
      }
      if fExec && opcode <= OP_PUSHDATA4 {
        if VerifyMinimalData in env.flags && !MinimalPush(i.data, opcode) { return Err(MinimalData); }
        stack := stack + [i.data];
      } else if fExec || IsFlow(opcode) {
        var _ :- Execute(opcode, next, fExec);
      }
      if |stack| + |altstack| > MAX_STACK_SIZE { return Err(StackSize); }
      opcodePos := opcodePos + 1;
      return Ok(Unit);
    }
  }

  lemma StepStacks(env: Env, script: Bytes, t: Token, st: State)
    requires env.sv != Taproot && Budgeted(env, st) && st.codeStart <= |script|
    ensures Step(env, script, t, st).Next? ==> StacksBounded(Step(env, script, t, st).st)
  {
    hide Dispatch;
  }

  /** What the loop of eval_script keeps of the state at a position. */
  ghost predicate Sized(pc: nat, weight: int, st: State) {
    && |st.conds| <= st.pos <= pc
    && |st.stack| <= MAX_LENGTH && ElementsBounded(MAX_LENGTH, st) && WeightKept(weight, st)
  }

  lemma SizedStart(start: Stack, startExec: ExecData)
    requires Addressable(start)
    ensures Sized(0, startExec.weightLeft, Initial(start, startExec))
  {
  }

  lemma SizedMeans(pc: nat, startExec: ExecData, st: State)
    requires Sized(pc, startExec.weightLeft, st)
    ensures Addressable(st.stack) && |st.conds| <= st.pos <= pc
    ensures Weighted(startExec) && st.exec.weightInit ==> Weighted(st.exec)
  {
  }

  /** One turn of the loop is one step of the run, and keeps it. */
  lemma TurnRuns(env: Env, script: Bytes, pc: nat, t: Token, st: State, weight: int)
    requires env.sv != Taproot && Budgeted(env, st) && st.codeStart <= |script|
    requires pc < |script| && ReadAt(script, pc) == Some(t) && Sized(pc, weight, st)
    ensures var r := Step(env, script, t, st);
            && (r.Halt? ==> Run(env, script, pc, st) == r)
            && (r.Next? ==>
                  && pc < t.next <= |script| && Sized(t.next, weight, r.st) && Budgeted(env, r.st)
                  && r.st.codeStart <= |script| && Run(env, script, pc, st) == Run(env, script, t.next, r.st))
  {
    hide Step, ReadAt, ElementsBounded, WeightKept;
    StepFrame(env, script, t, st);
    StepWeight(env, script, t, st, weight);
    StepWithin(MAX_LENGTH, env, script, t, st);
    StepStacks(env, script, t, st);
  }

  lemma RunStops(env: Env, script: Bytes, pc: nat, st: State)
    requires env.sv != Taproot && Budgeted(env, st) && st.codeStart <= |script| && pc <= |script|
    ensures pc < |script| && ReadAt(script, pc).None? ==> Run(env, script, pc, st) == Halt(BadOpcode, st.ecdsa)
    ensures pc == |script| ==>
              Run(env, script, pc, st) == if st.conds != [] then Halt(UnbalancedConditional, st.ecdsa) else Next(st)
  {
    hide Step, ReadAt;
  }

  /** eval_script. Where no script size limit applies the 32-bit opcode counter bounds the
      length instead. The result is the outcome of the machine's run: the same error after
      the same number of signature checks, or the same stack and execution data. */
  method EvalScript(env: Env, script: Bytes, start: Stack, startExec: ExecData)
    returns (r: Result<Unit>, stack: Stack, ed: ExecData, ghost checks: nat)
    requires env.sv != Taproot && (env.sv == Tapscript ==> Weighted(startExec) && |script| <= NO_FALSE)
    requires Addressable(start)
    ensures match Eval(env, script, start, startExec)
            case Halt(e, _) => r == Err(e)
            case Next(st) => r == Ok(Unit) && stack == st.stack && ed == st.exec
    ensures checks == match Eval(env, script, start, startExec) case Halt(_, n) => n case Next(st) => st.ecdsa
  {
    stack, ed, checks := start, startExec, 0;
    if (env.sv == Base || env.sv == WitnessV0) && |script| > MAX_SCRIPT_SIZE {
      return Err(ScriptSize), stack, ed, checks;
    }
    hide Run, Step, ReadAt, Sized, WeightKept;
    SizedStart(start, startExec);
    var it := new Interpreter(env, script, start, startExec);
    var pc := 0;
    while pc < |script|
      invariant it.Valid() && it.env == env && it.script == script && pc <= |script|
      invariant fresh(it) && fresh(it.vfExec)
      invariant Sized(pc, startExec.weightLeft, it.Abs())
      invariant Run(env, script, 0, Initial(start, startExec)) == Run(env, script, pc, it.Abs())
      decreases |script| - pc
    {
      var i, next := ReadInstruction(script, pc);
      RunStops(env, script, pc, it.Abs());
      if i.None? { return Err(BadOpcode), it.stack, it.execData, it.ecdsa; }
      SizedMeans(pc, startExec, it.Abs());
      TurnRuns(env, script, pc, Token(i.value, next), it.Abs(), startExec.weightLeft);
      ghost var after := Step(env, script, Token(i.value, next), it.Abs());
      if after.Next? { SizedMeans(next, startExec, after.st); }
      var t := it.Turn(i.value, next);
      if t.Err? { return Err(t.error), it.stack, it.execData, it.ecdsa; }
      pc := next;
    }
    RunStops(env, script, pc, it.Abs());
    var empty := it.vfExec.IsEmpty();
    if !empty { return Err(UnbalancedConditional), it.stack, it.execData, it.ecdsa; }
    return Ok(Unit), it.stack, it.execData, it.ecdsa;
  }
}
