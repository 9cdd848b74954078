/** What the opcodes do, told on stacks written out item by item: which item each one reads,
    where its result goes, and when it refuses. The rest of a stack is any list. */
module Opcodes {
  import opened ScriptTypes
  import opened ScriptNum
  import opened Condition
  import opened Grammar
  import opened Encoding
  import opened Signatures
  import opened Machine

  function Truth(b: bool): Bytes { if b then [1] else [] }

  // ---- CHECKSIG, CHECKSIGVERIFY, CHECKSIGADD -------------------------------------------

  lemma TopTwo(rest: Stack, a: Bytes, b: Bytes)
    ensures var s := rest + [a, b]; s[|s| - 1] == b && s[|s| - 2] == a && s[..|s| - 2] == rest
  {
  }

  lemma TopThree(rest: Stack, a: Bytes, b: Bytes, c: Bytes)
    ensures var s := rest + [a, b, c];
            s[|s| - 1] == c && s[|s| - 2] == b && s[|s| - 3] == a && s[..|s| - 3] == rest
  {
  }

  /** The signed code: before segwit, without the instructions that push the signature, which
      CONST_SCRIPTCODE refuses; as it is in segwit. */
  lemma SignedCodeLaw(env: Env, code: Bytes, sig: Bytes)
    requires CountsOps(env) && |sig| <= 65535
    ensures env.sv == WitnessV0 ==> SignedCode(env, code, sig) == Ok(code)
    ensures env.sv == Base && VerifyConstScriptCode in env.flags && DirectPush(sig) in Instrs(code, 0) ==>
              SignedCode(env, code, sig) == Err(SigFindAndDelete)
    ensures env.sv == Base && !(VerifyConstScriptCode in env.flags && DirectPush(sig) in Instrs(code, 0)) ==>
              && AllWellFormed(Without(Instrs(code, 0), DirectPush(sig)))
              && SignedCode(env, code, sig) ==
                 Ok(Unparse(Without(Instrs(code, 0), DirectPush(sig))) + FromFault(code, 0))
  {
    hide Instrs, Unparse, Without, PushPattern, Encode, FromFault, Deleted, Matches;
    DeleteIsFilter(code, DirectPush(sig), 0);
    OccursIff(Instrs(code, 0), DirectPush(sig));
    PushPatternIs(sig);
  }

  lemma PushPatternIs(sig: Bytes)
    requires |sig| <= 65535
    ensures PushPattern(sig) == Encode(DirectPush(sig))
  {
  }

  lemma {:induction false} OccursIff(instrs: seq<Instr>, i: Instr)
    ensures Occurrences(instrs, i) > 0 <==> i in instrs
  {
    if instrs != [] {
      OccursIff(instrs[1..], i);
      assert instrs == [instrs[0]] + instrs[1..];
    }
  }

  /** Before tapscript: the key is on top, the signature below it, and the check is made on
      the code since the last separator with the signature's own push deleted before segwit. */
  lemma CheckSigLaw(env: Env, script: Bytes, next: nat, verify: bool, rest: Stack, sig: Bytes, key: Bytes, st: State)
    requires CountsOps(env) && st.codeStart <= |script| && st.stack == rest + [sig, key]
    ensures var code := SignedCode(env, script[st.codeStart..], sig);
            var r := ExecOp(env, script, next, if verify then 0xad else 0xac, st);
            && (code.Err? || PairEncoding(env, sig, key).Err? ==> r.Halt?)
            && (code.Ok? && PairEncoding(env, sig, key).Ok? ==>
                  var ok := env.checker.ecdsa(sig, key, code.value, env.sv);
                  && (r.Next? <==> ok || (!verify && (sig == [] || VerifyNullFail !in env.flags)))
                  && (r.Next? ==>
                        r.st == st.(stack := if verify then rest else rest + [Truth(ok)], ecdsa := st.ecdsa + 1)))
  {
    hide SignedCode, PairEncoding;
    TopTwo(rest, sig, key);
  }

  /** When a tapscript signature check passes: a non-empty signature pays 50 units and must
      verify under a 32-byte key; a key of another size passes unless discouraged. */
  predicate TapscriptPasses(env: Env, ed: ExecData, sig: Bytes, key: Bytes) {
    && key != []
    && (sig != [] ==> ed.weightLeft >= 50)
    && (sig != [] && |key| == 32 ==>
          env.checker.schnorr(sig, key, Tapscript, ed.(weightLeft := ed.weightLeft - 50)) == Ok(true))
    && (|key| != 32 ==> VerifyDiscourageUpgradablePubkeyType !in env.flags)
  }

  function Paid(ed: ExecData, sig: Bytes): ExecData {
    if sig == [] then ed else ed.(weightLeft := ed.weightLeft - 50)
  }

  lemma SchnorrLaw(env: Env, ed: ExecData, sig: Bytes, key: Bytes)
    requires ed.weightInit
    ensures CheckSigSchnorr(env, ed, sig, key).Ok? <==> TapscriptPasses(env, ed, sig, key)
    ensures CheckSigSchnorr(env, ed, sig, key).Ok? ==>
              CheckSigSchnorr(env, ed, sig, key).value == (sig != [], Paid(ed, sig))
  {
  }

  lemma TapscriptCheckSigLaw(env: Env, script: Bytes, next: nat, verify: bool, rest: Stack, sig: Bytes, key: Bytes,
                             st: State)
    requires env.sv == Tapscript && st.exec.weightInit && st.codeStart <= |script| && st.stack == rest + [sig, key]
    ensures var r := ExecOp(env, script, next, if verify then 0xad else 0xac, st);
            && (r.Next? <==> TapscriptPasses(env, st.exec, sig, key) && (verify ==> sig != []))
            && (r.Next? ==>
                  && r.st.stack == (if verify then rest else rest + [Truth(sig != [])])
                  && r.st == st.(stack := r.st.stack, exec := Paid(st.exec, sig),
                                 charged := st.charged + if sig == [] then 0 else 1))
  {
    hide CheckSigSchnorr, TapscriptPasses;
    TopTwo(rest, sig, key);
    SchnorrLaw(env, st.exec, sig, key);
  }

  /** The key on top, the counter below it, the signature below that. */
  lemma CheckSigAddLaw(env: Env, script: Bytes, next: nat, rest: Stack, sig: Bytes, num: Bytes, key: Bytes, st: State)
    requires env.sv == Tapscript && st.exec.weightInit && st.codeStart <= |script| && st.stack == rest + [sig, num, key]
    ensures var r := ExecOp(env, script, next, 0xba, st);
            && (r.Next? <==> TapscriptPasses(env, st.exec, sig, key) && Num(env, num).Ok?)
            && (r.Next? ==>
                  && r.st.stack == rest + [Serialize(Num(env, num).value + if sig == [] then 0 else 1)]
                  && r.st == st.(stack := r.st.stack, exec := Paid(st.exec, sig),
                                 charged := st.charged + if sig == [] then 0 else 1))
  {
    hide CheckSigSchnorr, TapscriptPasses, Num;
    TopThree(rest, sig, num, key);
    SchnorrLaw(env, st.exec, sig, key);
  }

  // ---- CHECKMULTISIG -------------------------------------------------------------------

  function Rev<T>(s: seq<T>): (r: seq<T>)
    ensures |r| == |s|
  {
    seq(|s|, i requires 0 <= i < |s| => s[|s| - 1 - i])
  }

  lemma RevTwice<T>(s: seq<T>)
    ensures Rev(Rev(s)) == s
  {
  }

  /** The stack of a CHECKMULTISIG as a script writes it: dummy, signatures, their number,
      keys, their number. */
  function MultiSigStack(rest: Stack, dummy: Bytes, sigs: seq<Bytes>, keys: seq<Bytes>): Stack {
    rest + [dummy] + sigs + [Serialize(|sigs|)] + keys + [Serialize(|keys|)]
  }

  lemma SmallNum(env: Env, n: nat)
    requires n <= 20
    ensures Num(env, Serialize(n)) == Ok(n) && GetInt(n) == n
  {
    DecodeSerialize(n);
    if n > 0 { assert LeDigits(n) == [n] + LeDigits(0); }
  }

  lemma StackParts(rest: Stack, dummy: Bytes, sigs: seq<Bytes>, keys: seq<Bytes>)
    ensures var s, n := MultiSigStack(rest, dummy, sigs, keys), |rest| + 1;
            && |s| == |rest| + |sigs| + |keys| + 3 && s[..|rest|] == rest && s[|rest|] == dummy
            && s[n..n + |sigs|] == sigs && s[n + |sigs|] == Serialize(|sigs|)
            && s[n + |sigs| + 1..n + |sigs| + 1 + |keys|] == keys && Last(s) == Serialize(|keys|)
  {
    hide Serialize;
    var below := rest + [dummy];
    assert MultiSigStack(rest, dummy, sigs, keys) ==
      below + (sigs + ([Serialize(|sigs|)] + (keys + [Serialize(|keys|)])));
  }

  lemma TopDownIs(s: Stack, at: nat, part: seq<Bytes>)
    requires at + |part| <= |s| && s[at..at + |part|] == part
    ensures TopDown(s, |s| - at - |part| + 1, |part|) == Rev(part)
  {
    forall k | 0 <= k < |part| ensures TopDown(s, |s| - at - |part| + 1, |part|)[k] == Rev(part)[k] {
      assert s[at..at + |part|][|part| - 1 - k] == s[at + |part| - 1 - k];
    }
  }

  lemma OperandsRead(env: Env, ops: nat, rest: Stack, dummy: Bytes, sigs: seq<Bytes>, keys: seq<Bytes>)
    requires |sigs| <= |keys| <= 20 && ops + |keys| <= 201
    ensures MultiSigOperands(env, ops, MultiSigStack(rest, dummy, sigs, keys)) ==
            Ok(MultiSigArgs(Rev(keys), Rev(sigs), dummy, rest))
  {
    hide Serialize, MultiSigStack, Num, GetInt, Rev, TopDown;
    var s := MultiSigStack(rest, dummy, sigs, keys);
    StackParts(rest, dummy, sigs, keys);
    SmallNum(env, |keys|);
    SmallNum(env, |sigs|);
    TopDownIs(s, |rest| + 1, sigs);
    TopDownIs(s, |rest| + |sigs| + 2, keys);
  }

  function Mirrored(a: seq<nat>, n: nat): (r: seq<nat>)
    requires forall i :: 0 <= i < |a| ==> a[i] < n
    ensures |r| == |a|
  {
    seq(|a|, i requires 0 <= i < |a| => n - 1 - a[|a| - 1 - i])
  }

  lemma MirroredAssigns(env: Env, code: Bytes, sigs: seq<Bytes>, keys: seq<Bytes>, a: seq<nat>)
    requires Assignment(env, code, sigs, keys, a)
    ensures Assignment(env, code, Rev(sigs), Rev(keys), Mirrored(a, |keys|))
  {
    hide Passes;
    var b := Mirrored(a, |keys|);
    forall i | 0 <= i < |b| ensures Passes(env, code, Rev(sigs)[i], Rev(keys)[b[i]]) {
      var j := |a| - 1 - i;
      assert Passes(env, code, sigs[j], keys[a[j]]);
      assert Rev(sigs)[i] == sigs[j] && Rev(keys)[b[i]] == keys[a[j]];
    }
  }

  /** Reading both lists from the other end changes nothing. */
  lemma AssignableReversed(env: Env, code: Bytes, sigs: seq<Bytes>, keys: seq<Bytes>)
    ensures Assignable(env, code, Rev(sigs), Rev(keys)) <==> Assignable(env, code, sigs, keys)
  {
    hide Assignment;
    if Assignable(env, code, sigs, keys) {
      var a: seq<nat> :| Assignment(env, code, sigs, keys, a);
      AssignmentBound(env, code, sigs, keys, a);
      MirroredAssigns(env, code, sigs, keys, a);
    }
    if Assignable(env, code, Rev(sigs), Rev(keys)) {
      var a: seq<nat> :| Assignment(env, code, Rev(sigs), Rev(keys), a);
      AssignmentBound(env, code, Rev(sigs), Rev(keys), a);
      MirroredAssigns(env, code, Rev(sigs), Rev(keys), a);
      RevTwice(sigs);
      RevTwice(keys);
    }
  }

  lemma AssignmentBound(env: Env, code: Bytes, sigs: seq<Bytes>, keys: seq<Bytes>, a: seq<nat>)
    requires Assignment(env, code, sigs, keys, a)
    ensures forall i :: 0 <= i < |a| ==> a[i] < |keys|
  {
  }

  predicate AllEncoded(env: Env, sigs: seq<Bytes>, keys: seq<Bytes>) {
    forall i, j :: 0 <= i < |sigs| && 0 <= j < |keys| ==> PairEncoding(env, sigs[i], keys[j]).Ok?
  }

  lemma {:induction false} GreedyFinishes(env: Env, code: Bytes, sigs: seq<Bytes>, keys: seq<Bytes>)
    requires AllEncoded(env, sigs, keys)
    ensures Greedy(env, code, sigs, keys).result.Ok?
    decreases |keys|
  {
    hide PairEncoding;
    if 0 < |sigs| <= |keys| {
      var ok := env.checker.ecdsa(sigs[0], keys[0], code, env.sv);
      var left := if ok then sigs[1..] else sigs;
      assert PairEncoding(env, sigs[0], keys[0]).Ok?;
      assert AllEncoded(env, left, keys[1..]);
      GreedyFinishes(env, code, left, keys[1..]);
    }
  }

  lemma AllEncodedReversed(env: Env, sigs: seq<Bytes>, keys: seq<Bytes>)
    requires AllEncoded(env, sigs, keys)
    ensures AllEncoded(env, Rev(sigs), Rev(keys))
  {
    hide PairEncoding;
  }

  lemma AllEmptyReversed(sigs: seq<Bytes>)
    ensures AllEmpty(Rev(sigs)) <==> AllEmpty(sigs)
  {
    if AllEmpty(Rev(sigs)) {
      assert forall k :: 0 <= k < |sigs| ==> sigs[k] == Rev(sigs)[|sigs| - 1 - k];
    }
  }

  /** When CHECKMULTISIG returns, it has taken everything down to the dummy, and the verdict
      says whether the signatures can be given to keys in their order, over the code with
      the signatures deleted. It does return where every pair is encoded as the flags ask,
      but for the complaints about the dummy and about signatures that do not count. */
  lemma CheckMultiSigLaw(env: Env, script: Bytes, next: nat, verify: bool, rest: Stack, dummy: Bytes,
                         sigs: seq<Bytes>, keys: seq<Bytes>, st: State)
    requires CountsOps(env) && st.codeStart <= |script| && |sigs| <= |keys| <= 20 && st.ops + |keys| <= 201
    requires st.stack == MultiSigStack(rest, dummy, sigs, keys)
    ensures var code := SignedCodeAll(env, script[st.codeStart..], Rev(sigs));
            var r := ExecOp(env, script, next, if verify then 0xaf else 0xae, st);
            && (r.Next? ==>
                  && code.Ok?
                  && var ok := Assignable(env, code.value, sigs, keys);
                  && r.st.stack == (if verify then rest else rest + [Truth(ok)])
                  && r.st == st.(stack := r.st.stack, ops := st.ops + |keys|, ecdsa := r.st.ecdsa)
                  && st.ecdsa <= r.st.ecdsa <= st.ecdsa + |keys|)
            && (code.Ok? && AllEncoded(env, sigs, keys) ==>
                  var ok := Assignable(env, code.value, sigs, keys);
                  r.Next? <==>
                  && (ok || (!verify && (VerifyNullFail !in env.flags || AllEmpty(sigs))))
                  && (dummy == [] || VerifyNullDummy !in env.flags))
  {
    hide SignedCodeAll, Greedy, Assignable, AllEmpty, AllEncoded, MultiSigOperands, MultiSigStack, Rev;
    OperandsRead(env, st.ops, rest, dummy, sigs, keys);
    var code := SignedCodeAll(env, script[st.codeStart..], Rev(sigs));
    if code.Ok? {
      GreedyDecides(env, code.value, Rev(sigs), Rev(keys));
      AssignableReversed(env, code.value, sigs, keys);
      AllEmptyReversed(sigs);
      if AllEncoded(env, sigs, keys) {
        AllEncodedReversed(env, sigs, keys);
        GreedyFinishes(env, code.value, Rev(sigs), Rev(keys));
      }
    }
  }

  /** What CHECKMULTISIG refuses before it looks at a signature: a key count outside 0 to 20,
      or one that takes the operations over 201, and a signature count outside 0 to the key
      count. */
  lemma MultiSigRefuses(env: Env, script: Bytes, next: nat, rest: Stack, k: Bytes, n: int, st: State)
    requires CountsOps(env) && st.codeStart <= |script| && st.stack == rest + [k]
    requires Num(env, k) == Ok(n) && -0x8000_0000 < n < 0x8000_0000
    ensures n < 0 || n > 20 ==> ExecOp(env, script, next, 0xae, st) == Halt(PubkeyCount, st.ecdsa)
    ensures 0 <= n <= 20 && st.ops + n > 201 ==> ExecOp(env, script, next, 0xae, st) == Halt(OpCount, st.ecdsa)
    ensures 0 <= n <= 20 && st.ops + n <= 201 && |rest| <= n ==>
              ExecOp(env, script, next, 0xae, st) == Halt(InvalidStackOperation, st.ecdsa)
    ensures forall m :: 0 <= n <= 20 && st.ops + n <= 201 && |rest| > n && Num(env, rest[|rest| - n - 1]) == Ok(m) &&
                        -0x8000_0000 < m < 0x8000_0000 && (m < 0 || m > n) ==>
                          ExecOp(env, script, next, 0xae, st) == Halt(SigCount, st.ecdsa)
  {
    hide Num, SignedCodeAll, Greedy;
    TopOne(rest, k);
    if 0 <= n <= 20 && |rest| > n { assert st.stack[|st.stack| - n - 2] == rest[|rest| - n - 1]; }
  }

  /** CHECKMULTISIG is gone in tapscript, and CHECKSIGADD is there only. */
  lemma SigOpcodesByVersion(env: Env, script: Bytes, next: nat, st: State)
    requires env.sv != Taproot && Budgeted(env, st) && st.codeStart <= |script|
    ensures env.sv == Tapscript ==>
              && ExecOp(env, script, next, 0xae, st) == Halt(TapscriptCheckMultiSig, st.ecdsa)
              && ExecOp(env, script, next, 0xaf, st) == Halt(TapscriptCheckMultiSig, st.ecdsa)
    ensures env.sv != Tapscript ==> ExecOp(env, script, next, 0xba, st) == Halt(BadOpcode, st.ecdsa)
  {
  }

  // ---- Opcodes that only look at the stack ---------------------------------------------

  /** A shuffle leaves what lies below the items it takes. */
  lemma RearrangeItems(e: Effect, rest: Stack, items: Stack, out: Stack)
    requires InRange(e) && |items| == e.takes && |out| == |e.leaves|
    requires forall k :: 0 <= k < |out| ==> out[k] == items[e.leaves[k]]
    ensures Rearrange(e, rest + items) == Ok(rest + out)
  {
    var s := rest + items;
    assert s[..|s| - e.takes] == rest;
    assert seq(|e.leaves|, k requires 0 <= k < |e.leaves| => s[|s| - e.takes + e.leaves[k]]) == out;
  }

  lemma PairShuffles(env: Env, rest: Stack, a: Bytes, b: Bytes, c: Bytes, d: Bytes, e: Bytes, f: Bytes)
    ensures DataOp(env, 0x70, rest + [a, b, c, d]) == Ok(rest + [a, b, c, d, a, b])              // 2OVER
    ensures DataOp(env, 0x71, rest + [a, b, c, d, e, f]) == Ok(rest + [c, d, e, f, a, b])        // 2ROT
    ensures DataOp(env, 0x72, rest + [a, b, c, d]) == Ok(rest + [c, d, a, b])                    // 2SWAP
  {
    hide Rearrange;
    RearrangeItems(Effect(4, [0, 1, 2, 3, 0, 1]), rest, [a, b, c, d], [a, b, c, d, a, b]);
    RearrangeItems(Effect(6, [2, 3, 4, 5, 0, 1]), rest, [a, b, c, d, e, f], [c, d, e, f, a, b]);
    RearrangeItems(Effect(4, [2, 3, 0, 1]), rest, [a, b, c, d], [c, d, a, b]);
  }

  lemma WideShuffles(env: Env, rest: Stack, a: Bytes, b: Bytes, c: Bytes)
    ensures DataOp(env, 0x6d, rest + [a, b]) == Ok(rest)                                         // 2DROP
    ensures DataOp(env, 0x6e, rest + [a, b]) == Ok(rest + [a, b, a, b])                          // 2DUP
    ensures DataOp(env, 0x6f, rest + [a, b, c]) == Ok(rest + [a, b, c, a, b, c])                 // 3DUP
    ensures DataOp(env, 0x7b, rest + [a, b, c]) == Ok(rest + [b, c, a])                          // ROT
  {
    hide Rearrange;
    RearrangeItems(Effect(2, []), rest, [a, b], []);
    assert rest + [] == rest;
    RearrangeItems(Effect(2, [0, 1, 0, 1]), rest, [a, b], [a, b, a, b]);
    RearrangeItems(Effect(3, [0, 1, 2, 0, 1, 2]), rest, [a, b, c], [a, b, c, a, b, c]);
    RearrangeItems(Effect(3, [1, 2, 0]), rest, [a, b, c], [b, c, a]);
  }

  lemma SmallShuffles(env: Env, rest: Stack, a: Bytes, b: Bytes)
    ensures DataOp(env, 0x75, rest + [a]) == Ok(rest)                                            // DROP
    ensures DataOp(env, 0x76, rest + [a]) == Ok(rest + [a, a])                                   // DUP
    ensures DataOp(env, 0x77, rest + [a, b]) == Ok(rest + [b])                                   // NIP
  {
    hide Rearrange;
    RearrangeItems(Effect(1, []), rest, [a], []);
    assert rest + [] == rest;
    RearrangeItems(Effect(1, [0, 0]), rest, [a], [a, a]);
    RearrangeItems(Effect(2, [1]), rest, [a, b], [b]);
  }

  lemma TwoShuffles(env: Env, rest: Stack, a: Bytes, b: Bytes)
    ensures DataOp(env, 0x78, rest + [a, b]) == Ok(rest + [a, b, a])                             // OVER
    ensures DataOp(env, 0x7c, rest + [a, b]) == Ok(rest + [b, a])                                // SWAP
    ensures DataOp(env, 0x7d, rest + [a, b]) == Ok(rest + [b, a, b])                             // TUCK
  {
    hide Rearrange;
    RearrangeItems(Effect(2, [0, 1, 0]), rest, [a, b], [a, b, a]);
    RearrangeItems(Effect(2, [1, 0]), rest, [a, b], [b, a]);
    RearrangeItems(Effect(2, [1, 0, 1]), rest, [a, b], [b, a, b]);
  }

  /** PICK copies and ROLL moves the item that has as many items above it as the top says. */
  lemma PickRollLaw(env: Env, rest: Stack, x: Bytes, above: Stack, n: Bytes)
    requires Num(env, n) == Ok(|above|) && |above| < 0x8000_0000
    ensures DataOp(env, 0x79, rest + [x] + above + [n]) == Ok(rest + [x] + above + [x])
    ensures DataOp(env, 0x7a, rest + [x] + above + [n]) == Ok(rest + above + [x])
  {
    hide Num;
    var s, t := rest + [x] + above + [n], rest + [x] + above;
    assert Last(s) == n && Pop(s) == t && |t| - |above| - 1 == |rest|;
    assert t[|rest|] == x && t[..|rest|] == rest && t[|rest| + 1..] == above;
  }

  lemma TopOne(rest: Stack, a: Bytes)
    ensures var s := rest + [a]; s != [] && s[|s| - 1] == a && Last(s) == a && s[..|s| - 1] == rest && Pop(s) == rest
  {
  }

  lemma SerializeBool(b: bool)
    ensures Serialize(BoolNum(b)) == Truth(b)
  {
    assert LeDigits(1) == [1] + LeDigits(0);
  }

  /** What a numeric opcode reads as a number: at most four bytes, and under MINIMALDATA only
      the string that the number would be written as. */
  lemma NumberRead(env: Env, b: Bytes)
    ensures Num(env, b).Ok? <==> |b| <= 4 && (VerifyMinimalData in env.flags ==> b == Serialize(Decode(b)))
    ensures Num(env, b).Ok? ==> Num(env, b).value == Decode(b)
  {
    hide Decode, Serialize, Minimal;
    DecodeSerialize(Decode(b));
    if Minimal(b) { SerializeDecode(b); }
  }

  lemma UnaryLaws(env: Env, rest: Stack, a: Bytes, x: int)
    requires Num(env, a) == Ok(x)
    ensures DataOp(env, 0x8b, rest + [a]) == Ok(rest + [Serialize(x + 1)])
    ensures DataOp(env, 0x8c, rest + [a]) == Ok(rest + [Serialize(x - 1)])
    ensures DataOp(env, 0x8f, rest + [a]) == Ok(rest + [Serialize(0 - x)])
    ensures DataOp(env, 0x90, rest + [a]) == Ok(rest + [Serialize(if x < 0 then 0 - x else x)])
    ensures DataOp(env, 0x91, rest + [a]) == Ok(rest + [Truth(x == 0)])
    ensures DataOp(env, 0x92, rest + [a]) == Ok(rest + [Truth(x != 0)])
  {
    hide Serialize, Num;
    TopOne(rest, a);
    SerializeBool(x == 0);
    SerializeBool(x != 0);
  }

  /** The deeper of the two operands comes first. */
  lemma ArithmeticLaws(env: Env, rest: Stack, a: Bytes, b: Bytes, x: int, y: int)
    requires Num(env, a) == Ok(x) && Num(env, b) == Ok(y)
    ensures DataOp(env, 0x93, rest + [a, b]) == Ok(rest + [Serialize(x + y)])
    ensures DataOp(env, 0x94, rest + [a, b]) == Ok(rest + [Serialize(x - y)])
    ensures DataOp(env, 0xa3, rest + [a, b]) == Ok(rest + [Serialize(if x <= y then x else y)])
    ensures DataOp(env, 0xa4, rest + [a, b]) == Ok(rest + [Serialize(if x <= y then y else x)])
  {
    hide Serialize, Num;
    TopTwo(rest, a, b);
  }

  lemma LogicLaws(env: Env, rest: Stack, a: Bytes, b: Bytes, x: int, y: int)
    requires Num(env, a) == Ok(x) && Num(env, b) == Ok(y)
    ensures DataOp(env, 0x9a, rest + [a, b]) == Ok(rest + [Truth(x != 0 && y != 0)])
    ensures DataOp(env, 0x9b, rest + [a, b]) == Ok(rest + [Truth(x != 0 || y != 0)])
    ensures DataOp(env, 0x9c, rest + [a, b]) == Ok(rest + [Truth(x == y)])
    ensures DataOp(env, 0x9d, rest + [a, b]) == if x == y then Ok(rest) else Err(NumEqualVerify)
    ensures DataOp(env, 0x9e, rest + [a, b]) == Ok(rest + [Truth(x != y)])
  {
    hide Serialize, Num;
    TopTwo(rest, a, b);
    SerializeBool(true);
    SerializeBool(false);
  }

  lemma CompareLaws(env: Env, rest: Stack, a: Bytes, b: Bytes, x: int, y: int)
    requires Num(env, a) == Ok(x) && Num(env, b) == Ok(y)
    ensures DataOp(env, 0x9f, rest + [a, b]) == Ok(rest + [Truth(x < y)])
    ensures DataOp(env, 0xa0, rest + [a, b]) == Ok(rest + [Truth(y < x)])
    ensures DataOp(env, 0xa1, rest + [a, b]) == Ok(rest + [Truth(x <= y)])
    ensures DataOp(env, 0xa2, rest + [a, b]) == Ok(rest + [Truth(y <= x)])
  {
    hide Serialize, Num;
    TopTwo(rest, a, b);
    SerializeBool(true);
    SerializeBool(false);
  }

  /** WITHIN takes the least value first and leaves the greatest out. */
  lemma WithinLaw(env: Env, rest: Stack, a: Bytes, b: Bytes, c: Bytes, x: int, lo: int, hi: int)
    requires Num(env, a) == Ok(x) && Num(env, b) == Ok(lo) && Num(env, c) == Ok(hi)
    ensures DataOp(env, 0xa5, rest + [a, b, c]) == Ok(rest + [Truth(lo <= x && x < hi)])
  {
    hide Serialize, Num;
    TopThree(rest, a, b, c);
  }

  lemma HashLaws(env: Env, rest: Stack, a: Bytes)
    ensures DataOp(env, 0xa6, rest + [a]) == Ok(rest + [env.crypto.ripemd160(a)])
    ensures DataOp(env, 0xa7, rest + [a]) == Ok(rest + [env.crypto.sha1(a)])
    ensures DataOp(env, 0xa8, rest + [a]) == Ok(rest + [env.crypto.sha256(a)])
    ensures DataOp(env, 0xa9, rest + [a]) == Ok(rest + [env.crypto.ripemd160(env.crypto.sha256(a))])
    ensures DataOp(env, 0xaa, rest + [a]) == Ok(rest + [env.crypto.sha256(env.crypto.sha256(a))])
  {
    TopOne(rest, a);
  }

  lemma EqualLaws(env: Env, rest: Stack, a: Bytes, b: Bytes)
    ensures DataOp(env, 0x87, rest + [a, b]) == Ok(rest + [Truth(a == b)])
    ensures DataOp(env, 0x88, rest + [a, b]) == if a == b then Ok(rest) else Err(EqualVerify)
  {
    TopTwo(rest, a, b);
  }

  lemma TopLaws(env: Env, rest: Stack, a: Bytes)
    ensures DataOp(env, 0x69, rest + [a]) == if CastToBool(a) then Ok(rest) else Err(Verify)
    ensures DataOp(env, 0x73, rest + [a]) == Ok(if CastToBool(a) then rest + [a, a] else rest + [a])
    ensures DataOp(env, 0x82, rest + [a]) == Ok(rest + [a, Serialize(|a|)])
    ensures DataOp(env, 0x74, rest) == Ok(rest + [Serialize(|rest|)])
    ensures DataOp(env, 0x61, rest) == Ok(rest) && DataOp(env, 0x6a, rest) == Err(OpReturn)
  {
    hide CastToBool, Serialize;
    TopOne(rest, a);
    assert rest + [a] + [a] == rest + [a, a] && rest + [a] + [Serialize(|a|)] == rest + [a, Serialize(|a|)];
  }

  lemma SerializeSmall(n: nat)
    requires 1 <= n <= 127
    ensures Serialize(n) == [n] && Serialize(0 - n) == [n + 0x80]
  {
    assert LeDigits(n) == [n] + LeDigits(0) == [n];
    assert Pop([n]) + [n + 0x80] == [n + 0x80];
  }

  lemma NumberLaws(env: Env, rest: Stack, n: nat)
    requires 1 <= n <= 16
    ensures DataOp(env, 0x50 + n, rest) == Ok(rest + [[n]]) && DataOp(env, 0x4f, rest) == Ok(rest + [[0x81]])
  {
    hide Serialize;
    SerializeSmall(n);
    SerializeSmall(1);
  }

  /** Both lock opcodes read five-byte numbers and leave the stack. */
  lemma LockTimeLaw(env: Env, rest: Stack, a: Bytes)
    ensures var v := FromBytes(a, VerifyMinimalData in env.flags, 5);
            && (DataOp(env, 0xb1, rest + [a]).Ok? <==>
                (VerifyCheckLockTimeVerify in env.flags ==> v.Ok? && v.value >= 0 && env.checker.lockTime(v.value)))
            && (DataOp(env, 0xb1, rest + [a]).Ok? ==> DataOp(env, 0xb1, rest + [a]) == Ok(rest + [a]))
  {
    hide FromBytes;
    TopOne(rest, a);
  }

  /** A sequence number whose bit 31 is set passes unchecked. */
  lemma SequenceLaw(env: Env, rest: Stack, a: Bytes)
    ensures var v := FromBytes(a, VerifyMinimalData in env.flags, 5);
            && (DataOp(env, 0xb2, rest + [a]).Ok? <==>
                (VerifyCheckSequenceVerify in env.flags ==>
                   v.Ok? && v.value >= 0 && (v.value / 0x8000_0000 % 2 == 1 || env.checker.sequence(v.value))))
            && (DataOp(env, 0xb2, rest + [a]).Ok? ==> DataOp(env, 0xb2, rest + [a]) == Ok(rest + [a]))
  {
    hide FromBytes;
    TopOne(rest, a);
  }

  lemma NopLaw(env: Env, op: Byte, stack: Stack)
    requires op in {0xb0, 0xb3, 0xb4, 0xb5, 0xb6, 0xb7, 0xb8, 0xb9}
    ensures DataOp(env, op, stack) ==
            if VerifyDiscourageUpgradableNops in env.flags then Err(DiscourageUpgradableNops) else Ok(stack)
  {
  }

  lemma DisabledSet(op: Byte)
    ensures IsDisabled(op) <==>
            op in {0x7e, 0x7f, 0x80, 0x81, 0x83, 0x84, 0x85, 0x86, 0x8d, 0x8e, 0x95, 0x96, 0x97, 0x98, 0x99}
  {
  }

  /** Scripts of more than 10000 bytes are refused before tapscript. */
  lemma SizeLimit(env: Env, script: Bytes, stack: Stack, ed: ExecData)
    requires env.sv != Taproot && (env.sv == Tapscript ==> ed.weightInit)
    ensures CountsOps(env) && |script| > 10000 ==> Eval(env, script, stack, ed) == Halt(ScriptSize, 0)
    ensures env.sv == Tapscript || |script| <= 10000 ==>
              Eval(env, script, stack, ed) == Run(env, script, 0, Initial(stack, ed))
  {
    hide Run;
  }

  /** How many items an opcode takes or looks at. */
  function Needs(op: Byte): nat {
    if op == 0x71 then 6
    else if op in {0x70, 0x72} then 4
    else if op in {0x6f, 0x7b, 0xa5} then 3
    else if op in {0x6d, 0x6e, 0x77, 0x78, 0x79, 0x7a, 0x7c, 0x7d, 0x87, 0x88, 0x93, 0x94} || 0x9a <= op <= 0xa4 then 2
    else if op in {0x69, 0x73, 0x75, 0x76, 0x82, 0x8b, 0x8c} || 0x8f <= op <= 0x92 || 0xa6 <= op <= 0xaa then 1
    else 0
  }

  lemma Underflow(env: Env, op: Byte, stack: Stack)
    requires |stack| < Needs(op)
    ensures DataOp(env, op, stack) == Err(InvalidStackOperation)
  {
    hide Num, CastToBool, Serialize;
  }

  /** The opcodes that make a tapscript succeed outright are those that would be refused as
      undefined if they were executed, but for VERIF, VERNOTIF and 0xff. */
  lemma OpSuccessIsUndefined(env: Env, script: Bytes, next: nat, op: Byte, st: State)
    requires env.sv == Tapscript && Budgeted(env, st) && st.codeStart <= |script| && op > 0x4e
    ensures IsOpSuccess(op) ==> ExecOp(env, script, next, op, st) == Halt(BadOpcode, st.ecdsa)
    ensures ExecOp(env, script, next, op, st.(stack := [])) == Halt(BadOpcode, st.ecdsa) ==>
              IsOpSuccess(op) || op in {0x65, 0x66, 0xff}
    ensures IsDisabled(op) ==> IsOpSuccess(op)
  {
    hide Num, CastToBool, Serialize, CheckSigSchnorr, IfArgument, FromBytes;
  }

  lemma PushesAreNoOpSuccess(op: Byte)
    requires op <= 0x4e
    ensures !IsOpSuccess(op)
  {
  }

  /** The length of a long push is little-endian, in one, two or four bytes after the opcode. */
  lemma PushLength(script: Bytes, pc: nat)
    requires pc < |script| && HeaderFits(script, pc)
    ensures script[pc] <= 75 ==> DataSize(script, pc) == script[pc]
    ensures script[pc] == 0x4c ==> pc + 2 <= |script| && DataSize(script, pc) == LeValue(script[pc + 1..pc + 2])
    ensures script[pc] == 0x4d ==> pc + 3 <= |script| && DataSize(script, pc) == LeValue(script[pc + 1..pc + 3])
    ensures script[pc] == 0x4e ==> pc + 5 <= |script| && DataSize(script, pc) == LeValue(script[pc + 1..pc + 5])
    ensures script[pc] > 0x4e ==> DataSize(script, pc) == 0
  {
    if 0x4c <= script[pc] <= 0x4e {
      var w := if script[pc] == 0x4c then 1 else if script[pc] == 0x4d then 2 else 4;
      LeValueFour(script[pc + 1..pc + 1 + w]);
    }
  }

  lemma LeValueFour(b: Bytes)
    ensures |b| == 1 ==> LeValue(b) == b[0]
    ensures |b| == 2 ==> LeValue(b) == Le16(b[0], b[1])
    ensures |b| == 4 ==> LeValue(b) == Le32(b[0], b[1], b[2], b[3])
  {
    if |b| == 1 { assert LeValue(b[1..]) == 0; }
    if |b| == 2 { assert LeValue(b[1..]) == b[1] + 256 * LeValue(b[1..][1..]); }
    if |b| == 4 {
      var c := b[1..];
      assert LeValue(b) == b[0] + 256 * LeValue(c) && LeValue(c) == c[0] + 256 * LeValue(c[1..]);
      assert LeValue(c[1..]) == c[1] + 256 * LeValue(c[1..][1..]);
      assert LeValue(c[1..][1..]) == c[2] + 256 * LeValue(c[1..][1..][1..]);
    }
  }

  // ---- Laws between opcodes ------------------------------------------------------------

  /** SUB takes back what ADD of the same number did, if the sum is still a number. */
  lemma SubUndoesAdd(env: Env, rest: Stack, a: Bytes, b: Bytes, x: int, y: int)
    requires Num(env, a) == Ok(x) && Num(env, b) == Ok(y) && Num(env, Serialize(x + y)).Ok?
    ensures DataOp(env, 0x93, rest + [a, b]).Ok?
    ensures DataOp(env, 0x94, DataOp(env, 0x93, rest + [a, b]).value + [b]) == Ok(rest + [Serialize(x)])
  {
    hide DataOp, Serialize, Num;
    var sum := Serialize(x + y);
    ArithmeticLaws(env, rest, a, b, x, y);
    assert Num(env, sum) == Ok(x + y) by { NumDecodes(env, x + y); }
    ArithmeticLaws(env, rest, sum, b, x + y, y);
    assert rest + [sum] + [b] == rest + [sum, b];
  }

  lemma NumDecodes(env: Env, v: int)
    requires Num(env, Serialize(v)).Ok?
    ensures Num(env, Serialize(v)) == Ok(v)
  {
    DecodeSerialize(v);
  }

  lemma RotThrice(env: Env, rest: Stack, a: Bytes, b: Bytes, c: Bytes)
    ensures DataOp(env, 0x7b, rest + [a, b, c]) == Ok(rest + [b, c, a])
    ensures DataOp(env, 0x7b, rest + [b, c, a]) == Ok(rest + [c, a, b])
    ensures DataOp(env, 0x7b, rest + [c, a, b]) == Ok(rest + [a, b, c])
  {
    hide DataOp;
    WideShuffles(env, rest, a, b, c);
    WideShuffles(env, rest, b, c, a);
    WideShuffles(env, rest, c, a, b);
  }

  lemma Hash256IsTwice(env: Env, rest: Stack, a: Bytes)
    ensures DataOp(env, 0xa8, rest + [a]).Ok?
    ensures DataOp(env, 0xaa, rest + [a]) == DataOp(env, 0xa8, DataOp(env, 0xa8, rest + [a]).value)
  {
    hide DataOp;
    HashLaws(env, rest, a);
    HashLaws(env, rest, env.crypto.sha256(a));
  }

  // ---- Branches, the alternate stack, separators ---------------------------------------

  /** In a branch not taken an instruction that is no branch opcode only counts. */
  lemma SkippedStep(env: Env, script: Bytes, t: Token, st: State)
    requires env.sv != Taproot && Budgeted(env, st) && st.codeStart <= |script|
    requires !AllTrue(st.conds) && !(0x63 <= t.instr.opcode <= 0x68) && |st.stack| + |st.alt| <= 1000
    ensures var counted := CountsOps(env) && t.instr.opcode > 0x60;
            var refused := |t.instr.data| > 520 || (counted && st.ops >= 201) || IsDisabled(t.instr.opcode) ||
                           (t.instr.opcode == 0xab && env.sv == Base && VerifyConstScriptCode in env.flags);
            if refused then Step(env, script, t, st).Halt?
            else Step(env, script, t, st) == Next(st.(pos := st.pos + 1, ops := st.ops + if counted then 1 else 0))
  {
    hide IsDisabled, ExecOp, MinimalPush;
  }

  /** What the argument of IF and NOTIF may be. */
  predicate CleanCondition(env: Env, v: Bytes) {
    || v == [] || v == [1]
    || (env.sv == Base && VerifyMinimalIfBase !in env.flags)
    || (env.sv == WitnessV0 && VerifyMinimalIf !in env.flags)
  }

  lemma IfLaw(env: Env, script: Bytes, next: nat, rest: Stack, v: Bytes, st: State)
    requires env.sv != Taproot && Budgeted(env, st) && st.codeStart <= |script|
    requires AllTrue(st.conds) && st.stack == rest + [v]
    ensures var yes, no := ExecOp(env, script, next, 0x63, st), ExecOp(env, script, next, 0x64, st);
            if CleanCondition(env, v)
            then && yes == Next(st.(stack := rest, conds := st.conds + [CastToBool(v)]))
                 && no == Next(st.(stack := rest, conds := st.conds + [!CastToBool(v)]))
            else yes.Halt? && no.Halt?
  {
    hide CastToBool;
    TopOne(rest, v);
  }

  /** NOTIF is IF of the negated condition. */
  lemma NotIfIsIfNot(env: Env, script: Bytes, next: nat, rest: Stack, v: Bytes, st: State)
    requires env.sv != Taproot && Budgeted(env, st) && st.codeStart <= |script|
    requires AllTrue(st.conds) && st.stack == rest + [v] && CleanCondition(env, v)
    ensures ExecOp(env, script, next, 0x64, st) ==
            ExecOp(env, script, next, 0x63, st.(stack := rest + [Truth(!CastToBool(v))]))
  {
    hide ExecOp, CastToBool;
    IfLaw(env, script, next, rest, v, st);
    IfLaw(env, script, next, rest, Truth(!CastToBool(v)), st.(stack := rest + [Truth(!CastToBool(v))]));
    assert CastToBool([1]) && !CastToBool([]) by { OneIsTrue(); }
  }

  lemma OneIsTrue()
    ensures CastToBool([1]) && !CastToBool([])
  {
    assert [1][0] != 0;
  }

  /** A branch inside one not taken is not taken and takes nothing from the stack; ELSE turns
      the innermost branch over and ENDIF ends it, taken or not. */
  lemma BranchLaws(env: Env, script: Bytes, next: nat, outer: seq<bool>, b: bool, st: State)
    requires env.sv != Taproot && Budgeted(env, st) && st.codeStart <= |script| && st.conds == outer + [b]
    ensures !AllTrue(st.conds) ==>
              && ExecOp(env, script, next, 0x63, st) == Next(st.(conds := st.conds + [false]))
              && ExecOp(env, script, next, 0x64, st) == Next(st.(conds := st.conds + [false]))
    ensures ExecOp(env, script, next, 0x67, st) == Next(st.(conds := outer + [!b]))
    ensures ExecOp(env, script, next, 0x68, st) == Next(st.(conds := outer))
  {
    assert Pop(st.conds) == outer && Last(st.conds) == b && st.conds[..|st.conds| - 1] == outer;
  }

  /** Every branch is closed, and nothing else is. */
  lemma BalanceLaw(env: Env, script: Bytes, pc: nat, st: State)
    requires env.sv != Taproot && Budgeted(env, st) && st.codeStart <= |script| && pc <= |script|
    ensures st.conds == [] ==>
              && ExecOp(env, script, pc, 0x67, st) == Halt(UnbalancedConditional, st.ecdsa)
              && ExecOp(env, script, pc, 0x68, st) == Halt(UnbalancedConditional, st.ecdsa)
    ensures Run(env, script, pc, st).Next? ==> Run(env, script, pc, st).st.conds == []
    decreases |script| - pc
  {
    hide Step, ReadAt;
    if pc < |script| && ReadAt(script, pc).Some? {
      var t := ReadAt(script, pc).value;
      StepFrame(env, script, t, st);
      if Step(env, script, t, st).Next? { BalanceLaw(env, script, t.next, Step(env, script, t, st).st); }
    }
  }

  lemma AltLaws(env: Env, script: Bytes, next: nat, rest: Stack, a: Bytes, st: State)
    requires env.sv != Taproot && Budgeted(env, st) && st.codeStart <= |script| && st.stack == rest + [a]
    ensures var there := st.(stack := rest, alt := st.alt + [a]);
            && ExecOp(env, script, next, 0x6b, st) == Next(there)
            && ExecOp(env, script, next, 0x6c, there) == Next(st)
  {
    TopOne(rest, a);
    TopOne(st.alt, a);
  }

  lemma SeparatorLaw(env: Env, script: Bytes, next: nat, st: State)
    requires env.sv != Taproot && Budgeted(env, st) && st.codeStart <= |script|
    ensures ExecOp(env, script, next, 0xab, st) ==
            Next(st.(codeStart := next, exec := st.exec.(codeSeparatorPos := st.pos)))
  {
  }
}
