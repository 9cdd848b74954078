/** CHECKSIG, CHECKSIGADD and CHECKMULTISIG: what they compute, and the matching problem
    that the greedy multisig loop decides. */
module Signatures {
  import opened ScriptTypes
  import opened ScriptNum
  import opened Encoding

  const STACK_TRUE: Bytes := [1]
  const STACK_FALSE: Bytes := []

  function BoolItem(b: bool): Bytes { if b then STACK_TRUE else STACK_FALSE }

  function Num(env: Env, b: Bytes): Result<int> {
    FromBytes(b, VerifyMinimalData in env.flags, DEFAULT_MAX_NUM_SIZE)
  }

  /** An outcome together with the number of ECDSA checks made on the way to it. */
  datatype Checked<+T> = Checked(result: Result<T>, checks: nat)

  /** The code a signature signs: before segwit the signature's own push is deleted. */
  function SignedCode(env: Env, code: Bytes, sig: Bytes): Result<Bytes> {
    if env.sv != Base then Ok(code)
    else if Matches(code, PushPattern(sig), 0) > 0 && VerifyConstScriptCode in env.flags then Err(SigFindAndDelete)
    else Ok(Deleted(code, PushPattern(sig), 0))
  }

  function SignedCodeAll(env: Env, code: Bytes, sigs: seq<Bytes>): Result<Bytes>
    decreases |sigs|
  {
    if sigs == [] then Ok(code)
    else
      var code' :- SignedCode(env, code, sigs[0]);
      SignedCodeAll(env, code', sigs[1..])
  }

  function PairEncoding(env: Env, sig: Bytes, pubkey: Bytes): Result<Unit> {
    var _ :- SignatureEncoding(env.flags, env.crypto, sig);
    PubkeyEncoding(env.flags, env.sv, pubkey)
  }

  // ---- One signature -------------------------------------------------------------------

  function CheckSigEcdsa(env: Env, code: Bytes, sig: Bytes, pubkey: Bytes): Checked<bool> {
    match SignedCode(env, code, sig)
    case Err(e) => Checked(Err(e), 0)
    case Ok(code') =>
      match PairEncoding(env, sig, pubkey)
      case Err(e) => Checked(Err(e), 0)
      case Ok(_) =>
        var ok := env.checker.ecdsa(sig, pubkey, code', env.sv);
        if !ok && VerifyNullFail in env.flags && sig != [] then Checked(Err(SigNullFail), 1)
        else Checked(Ok(ok), 1)
  }

  /** Tapscript: a non-empty signature costs 50 units of weight and must then verify. */
  function CheckSigSchnorr(env: Env, ed: ExecData, sig: Bytes, pubkey: Bytes): Result<(bool, ExecData)>
    requires ed.weightInit
  {
    var ed' := if sig == [] then ed else ed.(weightLeft := ed.weightLeft - VALIDATION_WEIGHT_PER_SIGOP_PASSED);
    if sig != [] && ed'.weightLeft < 0 then Err(TapscriptValidationWeight)
    else if pubkey == [] then Err(TapscriptEmptyPubkey)
    else if |pubkey| == 32 then
      if sig == [] then Ok((false, ed'))
      else
        var ok :- CheckSchnorr(env, sig, pubkey, Tapscript, ed');
        if ok then Ok((true, ed')) else Err(SchnorrSig)
    else if VerifyDiscourageUpgradablePubkeyType in env.flags then Err(DiscourageUpgradablePubkeyType)
    else Ok((sig != [], ed'))
  }

  // ---- Many signatures -----------------------------------------------------------------

  /** The loop: keys in order, each tried against the first signature not yet matched; it
      gives up once fewer keys than signatures are left. */
  function Greedy(env: Env, code: Bytes, sigs: seq<Bytes>, keys: seq<Bytes>): Checked<bool>
    decreases |keys|
  {
    if sigs == [] then Checked(Ok(true), 0)
    else if |sigs| > |keys| then Checked(Ok(false), 0)
    else
      match PairEncoding(env, sigs[0], keys[0])
      case Err(e) => Checked(Err(e), 0)
      case Ok(_) =>
        var ok := env.checker.ecdsa(sigs[0], keys[0], code, env.sv);
        var r := Greedy(env, code, if ok then sigs[1..] else sigs, keys[1..]);
        Checked(r.result, 1 + r.checks)
  }

  ghost predicate Passes(env: Env, code: Bytes, sig: Bytes, key: Bytes) {
    env.checker.ecdsa(sig, key, code, env.sv)
  }

  /** An order-preserving, injective choice of a key for every signature that verifies. */
  ghost predicate Assignment(env: Env, code: Bytes, sigs: seq<Bytes>, keys: seq<Bytes>, a: seq<nat>) {
    && |a| == |sigs|
    && (forall i :: 0 <= i < |a| ==> a[i] < |keys|)
    && (forall i, j :: 0 <= i < j < |a| ==> a[i] < a[j])
    && (forall i :: 0 <= i < |a| ==> Passes(env, code, sigs[i], keys[a[i]]))
  }

  ghost predicate Assignable(env: Env, code: Bytes, sigs: seq<Bytes>, keys: seq<Bytes>) {
    exists a: seq<nat> :: Assignment(env, code, sigs, keys, a)
  }

  /** Unless an encoding error stops it, the greedy loop succeeds exactly when some
      assignment exists, and it makes at most one check per key. */
  lemma {:induction false} GreedyDecides(env: Env, code: Bytes, sigs: seq<Bytes>, keys: seq<Bytes>)
    ensures Greedy(env, code, sigs, keys).checks <= |keys|
    ensures Greedy(env, code, sigs, keys).result.Ok? ==>
              (Greedy(env, code, sigs, keys).result.value <==> Assignable(env, code, sigs, keys))
    decreases |keys|
  {
    if sigs == [] {
      assert Assignment(env, code, sigs, keys, []);
    } else if |sigs| > |keys| {
      forall a: seq<nat> ensures !Assignment(env, code, sigs, keys, a) {
        if Assignment(env, code, sigs, keys, a) { TooFewKeys(env, code, sigs, keys, a, |a| - 1); }
      }
    } else {
      var ok := env.checker.ecdsa(sigs[0], keys[0], code, env.sv);
      var sigs' := if ok then sigs[1..] else sigs;
      GreedyDecides(env, code, sigs', keys[1..]);
      FirstKey(env, code, sigs, keys);
    }
  }

  lemma {:induction false} TooFewKeys(env: Env, code: Bytes, sigs: seq<Bytes>, keys: seq<Bytes>, a: seq<nat>, i: nat)
    requires Assignment(env, code, sigs, keys, a) && i < |a|
    ensures a[i] >= i
  {
    if i > 0 { TooFewKeys(env, code, sigs, keys, a, i - 1); }
  }

  predicate SkipsFirst(a: seq<nat>) {
    forall i :: 0 <= i < |a| ==> a[i] > 0
  }

  function Down(a: seq<nat>): (b: seq<nat>)
    requires SkipsFirst(a)
  {
    seq(|a|, i requires 0 <= i < |a| => a[i] - 1)
  }

  function Up(b: seq<nat>): (a: seq<nat>)
    ensures SkipsFirst(a)
  {
    seq(|b|, i requires 0 <= i < |b| => b[i] + 1)
  }

  lemma DropKey(env: Env, code: Bytes, sigs: seq<Bytes>, keys: seq<Bytes>, a: seq<nat>)
    requires keys != [] && Assignment(env, code, sigs, keys, a) && SkipsFirst(a)
    ensures Assignment(env, code, sigs, keys[1..], Down(a))
  {
    assert forall i :: 0 <= i < |a| ==> keys[1..][Down(a)[i]] == keys[a[i]];
  }

  lemma AddKey(env: Env, code: Bytes, sigs: seq<Bytes>, keys: seq<Bytes>, b: seq<nat>)
    requires keys != [] && Assignment(env, code, sigs, keys[1..], b)
    ensures Assignment(env, code, sigs, keys, Up(b))
  {
    assert forall i :: 0 <= i < |b| ==> keys[1..][b[i]] == keys[Up(b)[i]];
  }

  lemma DropSig(env: Env, code: Bytes, sigs: seq<Bytes>, keys: seq<Bytes>, a: seq<nat>)
    requires sigs != [] && Assignment(env, code, sigs, keys, a)
    ensures Assignment(env, code, sigs[1..], keys, a[1..]) && SkipsFirst(a[1..])
  {
    forall i | 0 <= i < |a[1..]| ensures a[1..][i] > 0 && Passes(env, code, sigs[1..][i], keys[a[1..][i]]) {
      assert a[1..][i] == a[i + 1] > a[0] && sigs[1..][i] == sigs[i + 1];
    }
  }

  lemma AddSig(env: Env, code: Bytes, sigs: seq<Bytes>, keys: seq<Bytes>, c: seq<nat>)
    requires sigs != [] && keys != [] && Passes(env, code, sigs[0], keys[0])
    requires Assignment(env, code, sigs[1..], keys, c) && SkipsFirst(c)
    ensures Assignment(env, code, sigs, keys, [0] + c)
  {
    var a := [0] + c;
    assert forall i :: 0 < i < |a| ==> a[i] == c[i - 1];
    forall i | 0 < i < |a| ensures Passes(env, code, sigs[i], keys[a[i]]) {
      assert sigs[1..][i - 1] == sigs[i] && Passes(env, code, sigs[1..][i - 1], keys[c[i - 1]]);
    }
  }

  /** The exchange argument: giving the first key to the first signature whenever they fit
      never loses an assignment, and a key that does not fit cannot be used. */
  lemma FirstKey(env: Env, code: Bytes, sigs: seq<Bytes>, keys: seq<Bytes>)
    requires sigs != [] && keys != []
    ensures var sigs' := if Passes(env, code, sigs[0], keys[0]) then sigs[1..] else sigs;
            Assignable(env, code, sigs, keys) <==> Assignable(env, code, sigs', keys[1..])
  {
    var fits := Passes(env, code, sigs[0], keys[0]);
    var sigs' := if fits then sigs[1..] else sigs;
    if Assignable(env, code, sigs, keys) {
      var a :| Assignment(env, code, sigs, keys, a);
      DropSig(env, code, sigs, keys, a);
      if fits {
        DropKey(env, code, sigs', keys, a[1..]);
      } else {
        assert a == [a[0]] + a[1..] && a[0] != 0;
        DropKey(env, code, sigs', keys, a);
      }
    }
    if Assignable(env, code, sigs', keys[1..]) {
      var b :| Assignment(env, code, sigs', keys[1..], b);
      AddKey(env, code, sigs', keys, b);
      if fits { AddSig(env, code, sigs, keys, Up(b)); }
    }
  }

  /** Items `start`, `start + 1`, ... counted from the top of the stack. */
  function TopDown(stack: Stack, start: nat, n: nat): (r: seq<Bytes>)
    requires start >= 1 && start + n <= |stack| + 1
    ensures |r| == n
  {
    seq(n, k requires 0 <= k < n => stack[|stack| - start - k])
  }

  predicate AllEmpty(sigs: seq<Bytes>) {
    forall k :: 0 <= k < |sigs| ==> sigs[k] == []
  }

  datatype MultiSigArgs = MultiSigArgs(keys: seq<Bytes>, sigs: seq<Bytes>, dummy: Bytes, rest: Stack)

  /** The operands, top first: key count, keys, signature count, signatures, dummy. */
  function MultiSigOperands(env: Env, ops: nat, stack: Stack): (r: Result<MultiSigArgs>)
    ensures r.Ok? ==> |r.value.sigs| <= |r.value.keys| <= MAX_PUBKEYS_PER_MULTISIG
    ensures r.Ok? ==> ops + |r.value.keys| <= MAX_OPS_PER_SCRIPT
    ensures r.Ok? ==> |stack| == |r.value.rest| + |r.value.keys| + |r.value.sigs| + 3
    ensures r.Ok? ==> r.value.rest <= stack
  {
    if stack == [] then Err(InvalidStackOperation)
    else
      var k :- Num(env, Last(stack));
      var nKeys := GetInt(k);
      if nKeys < 0 || nKeys > MAX_PUBKEYS_PER_MULTISIG then Err(PubkeyCount)
      else if ops + nKeys > MAX_OPS_PER_SCRIPT then Err(OpCount)
      else if |stack| < nKeys + 2 then Err(InvalidStackOperation)
      else
        var s :- Num(env, stack[|stack| - nKeys - 2]);
        var nSigs := GetInt(s);
        if nSigs < 0 || nSigs > nKeys then Err(SigCount)
        else if |stack| < nKeys + nSigs + 3 then Err(InvalidStackOperation)
        else
          var below := |stack| - nKeys - nSigs - 3;
          Ok(MultiSigArgs(TopDown(stack, 2, nKeys), TopDown(stack, nKeys + 3, nSigs), stack[below], stack[..below]))
  }

  /** Key operands of a CHECKMULTISIG that gets as far as counting them. */
  function MultiSigOps(env: Env, ops: nat, stack: Stack): nat {
    match MultiSigOperands(env, ops, stack) case Ok(args) => ops + |args.keys| case Err(_) => ops
  }

  function CheckMultiSig(env: Env, code: Bytes, ops: nat, stack: Stack): Checked<(bool, Stack)> {
    match MultiSigOperands(env, ops, stack)
    case Err(e) => Checked(Err(e), 0)
    case Ok(args) =>
      match SignedCodeAll(env, code, args.sigs)
      case Err(e) => Checked(Err(e), 0)
      case Ok(code') =>
        var g := Greedy(env, code', args.sigs, args.keys);
        match g.result
        case Err(e) => Checked(Err(e), g.checks)
        case Ok(success) =>
          if !success && VerifyNullFail in env.flags && !AllEmpty(args.sigs) then Checked(Err(SigNullFail), g.checks)
          else if VerifyNullDummy in env.flags && args.dummy != [] then Checked(Err(SigNullDummy), g.checks)
          else Checked(Ok((success, args.rest)), g.checks)
  }

  /** CHECKMULTISIG as a whole: when it returns, the verdict says whether an assignment
      exists over the code with the signatures deleted; it pops the counts, the keys, the
      signatures and the dummy and nothing else; at most one check per key was made; and
      under NULLFAIL a false verdict means every signature was empty. */
  lemma CheckMultiSigMeaning(env: Env, code: Bytes, ops: nat, stack: Stack)
    ensures var r := CheckMultiSig(env, code, ops, stack);
            && (r.checks > 0 ==> MultiSigOperands(env, ops, stack).Ok? &&
                                 ops + r.checks <= MultiSigOps(env, ops, stack) <= MAX_OPS_PER_SCRIPT)
            && (r.result.Ok? ==>
                  && MultiSigOperands(env, ops, stack).Ok?
                  && var args := MultiSigOperands(env, ops, stack).value;
                  && var (success, rest) := r.result.value;
                  && SignedCodeAll(env, code, args.sigs).Ok?
                  && (success <==> Assignable(env, SignedCodeAll(env, code, args.sigs).value, args.sigs, args.keys))
                  && rest == stack[..|stack| - |args.keys| - |args.sigs| - 3]
                  && (!success && VerifyNullFail in env.flags ==> AllEmpty(args.sigs))
                  && (VerifyNullDummy in env.flags ==> args.dummy == []))
  {
    match MultiSigOperands(env, ops, stack)
    case Err(_) =>
    case Ok(args) =>
      match SignedCodeAll(env, code, args.sigs)
      case Err(_) =>
      case Ok(code') => GreedyDecides(env, code', args.sigs, args.keys);
  }
}
