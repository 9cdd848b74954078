/** What an accepted spend has committed to: the scripts, keys and leaves that its programs
    name, found where the witness has them, and the checks that were made on them. */
module Commitments {
  import opened ScriptTypes
  import opened ScriptNum
  import opened Condition
  import opened Grammar
  import opened Encoding
  import opened Signatures
  import opened Machine
  import opened Opcodes
  import opened VerifySpec
  import opened P2shWrap
  import opened Order
  import TaprootSighash
  import Wire

  // ---- Witness scripts -----------------------------------------------------------------

  /** The script runs from these arguments to a single true item. */
  predicate EndsTrue(env: Env, script: Bytes, args: Stack, ed: ExecData)
    requires env.sv == WitnessV0 || (env.sv == Tapscript && ed.weightInit)
  {
    && (forall i :: 0 <= i < |args| ==> |args[i]| <= 520)
    && Eval(env, script, args, ed).Next?
    && var end := Eval(env, script, args, ed).st.stack;
       |end| == 1 && CastToBool(end[0])
  }

  lemma Executes(env: Env, script: Bytes, args: Stack, ed: ExecData)
    requires env.sv == WitnessV0 || (env.sv == Tapscript && ed.weightInit)
    ensures env.sv == WitnessV0 ==> (ExecuteWitness(env, args, script, ed).Ok? <==> EndsTrue(env, script, args, ed))
    ensures env.sv == Tapscript && !HasOpSuccess(Instrs(script, 0)) ==>
              (ExecuteWitness(env, args, script, ed).Ok? <==> |args| <= 1000 && EndsTrue(env, script, args, ed))
    ensures env.sv == Tapscript && HasOpSuccess(Instrs(script, 0)) ==>
              (ExecuteWitness(env, args, script, ed).Ok? <==> VerifyDiscourageOpSuccess !in env.flags)
  {
    hide Eval, CastToBool, HasOpSuccess, Instrs;
  }

  /** A 32-byte v0 program: the last item is the script, its SHA-256 is the program, and it
      runs from the other items to a single true one. */
  lemma ScriptHashCommits(env: Env, args: Stack, script: Bytes, program: Bytes)
    requires |program| == 32
    ensures VerifyV0(env, args + [script], program).Ok? <==>
            && env.crypto.sha256(script) == program
            && EndsTrue(env.(sv := WitnessV0), script, args, FRESH_EXEC_DATA)
    ensures VerifyV0(env, [], program).Err?
  {
    hide ExecuteWitness, EndsTrue;
    TopOne(args, script);
    Executes(env.(sv := WitnessV0), script, args, FRESH_EXEC_DATA);
  }

  // ---- Key hashes ----------------------------------------------------------------------

  /** An executed opcode outside the pushes, in a script that counts operations. */
  lemma StepExec(env: Env, script: Bytes, t: Token, st: State)
    requires CountsOps(env) && st.codeStart <= |script| && st.conds == [] && st.ops < 201
    requires t.instr.data == [] && t.instr.opcode > 0x60 && !IsDisabled(t.instr.opcode) && t.instr.opcode != 0xab
    ensures var r := ExecOp(env, script, t.next, t.instr.opcode, st.(ops := st.ops + 1));
            && (r.Halt? ==> Step(env, script, t, st) == r)
            && (r.Next? && |r.st.stack| + |r.st.alt| <= 1000 ==>
                  Step(env, script, t, st) == Next(r.st.(pos := r.st.pos + 1)))
            && (r.Next? && |r.st.stack| + |r.st.alt| > 1000 ==> Step(env, script, t, st).Halt?)
  {
    hide ExecOp, IsDisabled;
    assert AllTrue(st.conds);
  }

  lemma KeyHashTokens(program: Hash20)
    ensures var s := KeyHashScript(program);
            && |s| == 25 && ReadAt(s, 0) == Some(Token(Instr(0x76, []), 1))
            && ReadAt(s, 1) == Some(Token(Instr(0xa9, []), 2)) && ReadAt(s, 2) == Some(Token(Instr(0x14, program), 23))
            && ReadAt(s, 23) == Some(Token(Instr(0x88, []), 24)) && ReadAt(s, 24) == Some(Token(Instr(0xac, []), 25))
  {
    var s := KeyHashScript(program);
    assert s[1..1] == [] && s[2..2] == [] && s[3..23] == program && s[24..24] == [] && s[25..25] == [];
    assert s[0] == 0x76 && s[1] == 0xa9 && s[2] == 0x14 && s[23] == 0x88 && s[24] == 0xac;
  }

  predicate IsKeyHashOp(op: Byte) { op == 0x76 || op == 0xa9 || op == 0x88 }

  lemma StepStack(env: Env, script: Bytes, t: Token, st: State)
    requires CountsOps(env) && st.codeStart <= |script| && st.conds == [] && st.ops < 201
    requires t.instr.data == [] && IsKeyHashOp(t.instr.opcode) && |st.stack| + |st.alt| < 1000
    ensures var d := DataOp(env, t.instr.opcode, st.stack);
            && (d.Err? ==> Step(env, script, t, st).Halt?)
            && (d.Ok? && |d.value| <= |st.stack| + 1 ==>
                  Step(env, script, t, st) == Next(st.(stack := d.value, pos := st.pos + 1, ops := st.ops + 1)))
  {
    hide DataOp;
    StepExec(env, script, t, st);
  }

  lemma RunNext(env: Env, script: Bytes, pc: nat, t: Token, st: State)
    requires env.sv != Taproot && Budgeted(env, st) && st.codeStart <= |script|
    requires pc < |script| && ReadAt(script, pc) == Some(t)
    ensures var r := Step(env, script, t, st);
            && (r.Halt? ==> Run(env, script, pc, st) == r)
            && (r.Next? ==>
                  && Budgeted(env, r.st) && r.st.codeStart <= |script| && t.next <= |script|
                  && Run(env, script, pc, st) == Run(env, script, t.next, r.st))
  {
    hide Step, ReadAt;
    StepFrame(env, script, t, st);
  }

  /** The script of a key hash program, run from a signature and a key, checks the key's hash
      and then the signature, over the script itself. */
  lemma KeyHashRuns(env: Env, program: Hash20, sig: Bytes, key: Bytes, ed: ExecData)
    requires env.sv == WitnessV0
    ensures var r := Eval(env, KeyHashScript(program), [sig, key], ed);
            r.Next? && |r.st.stack| == 1 && CastToBool(r.st.stack[0]) <==> KeyHashPasses(env, program, sig, key)
  {
    hide Step, CastToBool, KeyHashScript, DataOp, Run, ReadAt, KeyHashPasses;
    var s, h := KeyHashScript(program), Hash160(env.crypto, key);
    KeyHashTokens(program);
    var st := Initial([sig, key], ed);
    assert [sig] + [key] == [sig, key] && [sig] + [key, key] == [sig, key, key];
    SmallShuffles(env, [sig], key, key);
    StepStack(env, s, Token(Instr(0x76, []), 1), st);
    RunNext(env, s, 0, Token(Instr(0x76, []), 1), st);
    var st1 := st.(stack := [sig, key, key], pos := 1, ops := 1);
    assert [sig, key] + [key] == [sig, key, key] && [sig, key] + [h] == [sig, key, h];
    HashLaws(env, [sig, key], key);
    StepStack(env, s, Token(Instr(0xa9, []), 2), st1);
    RunNext(env, s, 1, Token(Instr(0xa9, []), 2), st1);
    var st2 := st1.(stack := [sig, key, h], pos := 2, ops := 2);
    StepPush(env, s, Token(Instr(0x14, program), 23), st2);
    RunNext(env, s, 2, Token(Instr(0x14, program), 23), st2);
    assert [sig, key, h] + [program] == [sig, key, h, program];
    KeyHashEnds(env, program, sig, key, st2.(stack := [sig, key, h, program], pos := 3));
  }

  predicate KeyHashPasses(env: Env, program: Hash20, sig: Bytes, key: Bytes) {
    && Hash160(env.crypto, key) == program && PairEncoding(env, sig, key).Ok?
    && env.checker.ecdsa(sig, key, KeyHashScript(program), WitnessV0)
  }

  lemma KeyHashEnds(env: Env, program: Hash20, sig: Bytes, key: Bytes, st: State)
    requires env.sv == WitnessV0 && st.stack == [sig, key, Hash160(env.crypto, key), program]
    requires st.codeStart == 0 && st.conds == [] && st.alt == [] && st.ops == 2
    ensures |KeyHashScript(program)| == 25
    ensures var r := Run(env, KeyHashScript(program), 23, st);
            r.Next? && |r.st.stack| == 1 && CastToBool(r.st.stack[0]) <==> KeyHashPasses(env, program, sig, key)
  {
    hide Step, CastToBool, PairEncoding, KeyHashScript, ExecOp, Run, ReadAt, DataOp;
    var s, h := KeyHashScript(program), Hash160(env.crypto, key);
    KeyHashTokens(program);
    assert [sig, key] + [h, program] == st.stack;
    EqualLaws(env, [sig, key], h, program);
    StepStack(env, s, Token(Instr(0x88, []), 24), st);
    RunNext(env, s, 23, Token(Instr(0x88, []), 24), st);
    if h == program { KeySigEnds(env, program, sig, key, st.(stack := [sig, key], pos := st.pos + 1, ops := 3)); }
  }

  lemma KeySigEnds(env: Env, program: Hash20, sig: Bytes, key: Bytes, st: State)
    requires env.sv == WitnessV0 && st.stack == [sig, key]
    requires st.codeStart == 0 && st.conds == [] && st.alt == [] && st.ops == 3
    ensures |KeyHashScript(program)| == 25
    ensures var r := Run(env, KeyHashScript(program), 24, st);
            r.Next? && |r.st.stack| == 1 && CastToBool(r.st.stack[0]) <==>
            PairEncoding(env, sig, key).Ok? && env.checker.ecdsa(sig, key, KeyHashScript(program), WitnessV0)
  {
    hide Step, CastToBool, PairEncoding, KeyHashScript, ExecOp, Run, ReadAt, DataOp;
    var s := KeyHashScript(program);
    KeyHashTokens(program);
    StepExec(env, s, Token(Instr(0xac, []), 25), st);
    RunNext(env, s, 24, Token(Instr(0xac, []), 25), st);
    assert s[0..] == s && [] + [sig, key] == [sig, key];
    CheckSigLaw(env, s, 25, false, [], sig, key, st.(ops := 4));
    OneIsTrue();
    RunEnds(env, s, Step(env, s, Token(Instr(0xac, []), 25), st));
  }

  lemma RunEnds(env: Env, script: Bytes, r: Outcome)
    requires env.sv != Taproot && (r.Next? ==> Budgeted(env, r.st) && r.st.codeStart <= |script|)
    ensures r.Next? && r.st.conds == [] ==> Run(env, script, |script|, r.st) == r
  {
  }

  /** A 20-byte v0 program: two items, a signature and a key; HASH160 of the key is the
      program, and the signature verifies over the key hash script. */
  lemma KeyHashCommits(env: Env, wit: Stack, program: Hash20)
    ensures VerifyV0(env, wit, program).Ok? <==>
            && |wit| == 2 && |wit[0]| <= 520 && |wit[1]| <= 520
            && env.crypto.ripemd160(env.crypto.sha256(wit[1])) == program
            && PairEncoding(env.(sv := WitnessV0), wit[0], wit[1]).Ok?
            && env.checker.ecdsa(wit[0], wit[1], [0x76, 0xa9, 0x14] + program + [0x88, 0xac], WitnessV0)
  {
    hide ExecuteWitness, Eval, CastToBool, PairEncoding;
    assert KeyHashScript(program) == [0x76, 0xa9, 0x14] + program + [0x88, 0xac];
    if |wit| == 2 {
      assert wit == [wit[0], wit[1]];
      KeyHashRuns(env.(sv := WitnessV0), program, wit[0], wit[1], FRESH_EXEC_DATA);
      Executes(env.(sv := WitnessV0), KeyHashScript(program), wit, FRESH_EXEC_DATA);
    }
  }

  // ---- Taproot trees -------------------------------------------------------------------

  /** A branch hashes its smaller child first, whichever side it is on. */
  lemma SmallerFirst(c: Crypto, a: Hash32, b: Hash32)
    requires Precedes(a, b)
    ensures var tag := c.sha256([0x54, 0x61, 0x70, 0x42, 0x72, 0x61, 0x6e, 0x63, 0x68]);
            TapBranchHash(c, a, b) == TapBranchHash(c, b, a) == c.sha256(tag + tag + (a + b))
  {
    hide Precedes;
    LexLessIff(a, b);
    LexAsymmetric(a, b);
  }

  datatype TapTree = TapLeaf(version: Byte, script: Bytes) | TapNode(left: TapTree, right: TapTree)

  function TreeHash(c: Crypto, t: TapTree): Hash32 {
    match t
    case TapLeaf(v, script) => TapleafHash(c, v, script)
    case TapNode(l, r) => TapBranchHash(c, TreeHash(c, l), TreeHash(c, r))
  }

  /** The leaf that the turns from the root lead to, and the hashes passed by, deepest first. */
  function LeafAt(t: TapTree, turns: seq<bool>): Option<TapTree> {
    match t
    case TapLeaf(_, _) => if turns == [] then Some(t) else None
    case TapNode(l, r) => if turns == [] then None else LeafAt(if turns[0] then l else r, turns[1..])
  }

  function PathTo(c: Crypto, t: TapTree, turns: seq<bool>): (p: Bytes)
    ensures |p| % 32 == 0
  {
    match t
    case TapLeaf(_, _) => []
    case TapNode(l, r) =>
      if turns == [] then []
      else if turns[0] then PathTo(c, l, turns[1..]) + TreeHash(c, r) else PathTo(c, r, turns[1..]) + TreeHash(c, l)
  }

  lemma {:induction false} RootGrows(c: Crypto, path: Bytes, node: Hash32, leaf: Hash32)
    requires |path| % 32 == 0
    ensures TaprootRoot(c, path + node, leaf) == TapBranchHash(c, TaprootRoot(c, path, leaf), node)
    decreases |path|
  {
    hide TapBranchHash;
    if path == [] {
      assert path + node == node && node[32..] == [] && node[..32] == node;
    } else {
      assert (path + node)[32..] == path[32..] + node && (path + node)[..32] == path[..32];
      RootGrows(c, path[32..], node, TapBranchHash(c, leaf, path[..32]));
    }
  }

  /** From every leaf of every script tree, the path leads to the root. */
  lemma {:induction false} PathLeadsToRoot(c: Crypto, t: TapTree, turns: seq<bool>)
    requires LeafAt(t, turns).Some?
    ensures TaprootRoot(c, PathTo(c, t, turns), TreeHash(c, LeafAt(t, turns).value)) == TreeHash(c, t)
  {
    hide TapBranchHash, TapleafHash;
    match t
    case TapLeaf(_, _) =>
    case TapNode(l, r) =>
      var leaf := TreeHash(c, LeafAt(t, turns).value);
      if turns[0] {
        PathLeadsToRoot(c, l, turns[1..]);
        RootGrows(c, PathTo(c, l, turns[1..]), TreeHash(c, r), leaf);
      } else {
        PathLeadsToRoot(c, r, turns[1..]);
        RootGrows(c, PathTo(c, r, turns[1..]), TreeHash(c, l), leaf);
        BranchSymmetric(c, TreeHash(c, r), TreeHash(c, l));
      }
  }

  lemma BranchSymmetric(c: Crypto, a: Hash32, b: Hash32)
    ensures TapBranchHash(c, a, b) == TapBranchHash(c, b, a)
  {
    LexTotal(a, b);
    if LexLess(a, b) { LexAsymmetric(a, b); }
    if LexLess(b, a) { LexAsymmetric(b, a); }
  }

  // ---- Taproot spends ------------------------------------------------------------------

  predicate IsAnnex(item: Bytes) { item != [] && item[0] == 0x50 }

  function AnnexItems(annex: Option<Bytes>): Stack { if annex.Some? then [annex.value] else [] }

  /** What a check is told about the annex. */
  function AnnexExec(c: Crypto, annex: Option<Bytes>): ExecData {
    FRESH_EXEC_DATA.(annexInit := true, annexPresent := annex.Some?,
                     annexHash := if annex.Some? then c.sha256(Wire.CompactSize(|annex.value|) + annex.value)
                                  else ZERO_HASH)
  }

  lemma AnnexTaken(c: Crypto, stack: Stack, annex: Option<Bytes>)
    requires stack != [] && (annex.Some? ==> IsAnnex(annex.value))
    requires annex.None? && |stack| > 1 ==> !IsAnnex(Last(stack))
    ensures var wit := stack + AnnexItems(annex);
            && wit != [] && HasAnnex(wit) == annex.Some? && AnnexData(c, wit) == AnnexExec(c, annex)
            && (if HasAnnex(wit) then Pop(wit) else wit) == stack
  {
    hide Wire.CompactSize;
    if annex.Some? { TopOne(stack, annex.value); } else { assert stack + [] == stack; }
  }

  /** A single item, but for the annex, is a signature under the output key. */
  lemma KeyPathCommits(env: Env, sig: Bytes, annex: Option<Bytes>, program: Bytes)
    requires VerifyTaproot in env.flags && |program| == 32 && (annex.Some? ==> IsAnnex(annex.value))
    ensures VerifyTaprootSpend(env, [sig] + AnnexItems(annex), program).Ok? <==>
            env.checker.schnorr(sig, program, Taproot, AnnexExec(env.crypto, annex)) == Ok(true)
  {
    hide AnnexData, AnnexExec, HasAnnex, AnnexItems;
    AnnexTaken(env.crypto, [sig], annex);
  }

  function ItemBytes(item: Bytes): Bytes { Wire.CompactSize(|item|) + item }

  /** A witness as a transaction carries it. */
  function WitnessBytes(wit: Stack): Bytes {
    Wire.CompactSize(|wit|) + TaprootSighash.Concat(ItemBytes, wit)
  }

  lemma {:induction false} ItemsSize(wit: Stack)
    ensures |TaprootSighash.Concat(ItemBytes, wit)| == SerializedSize(wit)
  {
    hide Wire.CompactSize;
    if wit != [] { ItemsSize(Pop(wit)); }
  }

  function LeafHash(c: Crypto, version: Byte, script: Bytes): Hash32 {
    var tag := c.sha256([0x54, 0x61, 0x70, 0x4c, 0x65, 0x61, 0x66]);
    c.sha256(tag + tag + ([version] + Wire.CompactSize(|script|) + script))
  }

  /** What a leaf of this version has to do once it is known to be in the tree. */
  predicate LeafAccepts(env: Env, args: Stack, script: Bytes, version: Byte, weight: nat, annex: Option<Bytes>) {
    if version != 0xc0 then VerifyDiscourageUpgradableTaprootVersion !in env.flags
    else if HasOpSuccess(Instrs(script, 0)) then VerifyDiscourageOpSuccess !in env.flags
    else
      |args| <= 1000 &&
      EndsTrue(env.(sv := Tapscript), script, args,
               AnnexExec(env.crypto, annex).(tapleafHash := LeafHash(env.crypto, version, script),
                                             tapleafHashInit := true, weightLeft := weight, weightInit := true))
  }

  predicate InTree(c: Crypto, script: Bytes, control: Bytes, program: Bytes) {
    && 33 <= |control| <= 4129 && (|control| - 33) % 32 == 0
    && c.tweaks(control[1..33], program,
                TaprootRoot(c, control[33..], LeafHash(c, control[0] - control[0] % 2, script)), control[0] % 2 == 1)
  }

  /** Script and control block are the last two items, but for the annex: the leaf is in the
      tree that the output key commits to, and the script runs from the other items, with
      50 units more than the whole witness has bytes. */
  lemma ScriptPathCommits(env: Env, args: Stack, script: Bytes, control: Bytes, annex: Option<Bytes>, program: Bytes)
    requires VerifyTaproot in env.flags && |program| == 32
    requires if annex.Some? then IsAnnex(annex.value) else !IsAnnex(control)
    ensures var wit := args + [script, control] + AnnexItems(annex);
            VerifyTaprootSpend(env, wit, program).Ok? <==>
            && InTree(env.crypto, script, control, program)
            && LeafAccepts(env, args, script, control[0] - control[0] % 2, |WitnessBytes(wit)| + 50, annex)
  {
    hide AnnexData, HasAnnex, AnnexItems, ExecuteWitness, EndsTrue, HasOpSuccess, Instrs, Wire.CompactSize,
      SerializedSize, TaprootRoot, TaprootSighash.Concat;
    hide TapleafHash, LeafHash;
    var stack := args + [script, control];
    var wit := stack + AnnexItems(annex);
    TopTwo(args, script, control);
    assert Last(Pop(stack)) == script && Pop(Pop(stack)) == args && |stack| >= 2;
    AnnexTaken(env.crypto, stack, annex);
    ItemsSize(wit);
    if InTree(env.crypto, script, control, program) {
      var leafVersion: Byte := control[0] - control[0] % 2;
      LeafHashes(env.crypto, leafVersion, script);
      var ed := AnnexExec(env.crypto, annex).(tapleafHash := LeafHash(env.crypto, leafVersion, script),
        tapleafHashInit := true, weightLeft := |WitnessBytes(wit)| + 50, weightInit := true);
      Executes(env.(sv := Tapscript), script, args, ed);
    } else if ControlSize(control) {
      LeafHashes(env.crypto, control[0] - control[0] % 2, script);
    }
  }

  lemma LeafHashes(c: Crypto, version: Byte, script: Bytes)
    ensures TapleafHash(c, version, script) == LeafHash(c, version, script)
  {
    hide Wire.CompactSize;
  }

  // ---- Programs ------------------------------------------------------------------------

  ghost predicate ScriptHashSpend(env: Env, wit: Stack, program: Bytes, args: Stack, script: Bytes) {
    && wit == args + [script] && env.crypto.sha256(script) == program
    && EndsTrue(env.(sv := WitnessV0), script, args, FRESH_EXEC_DATA)
  }

  ghost predicate KeyHashSpend(env: Env, wit: Stack, program: Bytes, sig: Bytes, key: Bytes) {
    && wit == [sig, key] && |sig| <= 520 && |key| <= 520
    && env.crypto.ripemd160(env.crypto.sha256(key)) == program
    && PairEncoding(env.(sv := WitnessV0), sig, key).Ok?
    && env.checker.ecdsa(sig, key, [0x76, 0xa9, 0x14] + program + [0x88, 0xac], WitnessV0)
  }

  ghost predicate KeyPathSpend(env: Env, wit: Stack, program: Bytes, sig: Bytes, annex: Option<Bytes>) {
    && wit == [sig] + AnnexItems(annex) && (annex.Some? ==> IsAnnex(annex.value))
    && env.checker.schnorr(sig, program, Taproot, AnnexExec(env.crypto, annex)) == Ok(true)
  }

  ghost predicate ScriptPathSpend(env: Env, wit: Stack, program: Bytes, args: Stack, script: Bytes, control: Bytes,
                                  annex: Option<Bytes>)
  {
    && wit == args + [script, control] + AnnexItems(annex)
    && (if annex.Some? then IsAnnex(annex.value) else !IsAnnex(control))
    && InTree(env.crypto, script, control, program)
    && LeafAccepts(env, args, script, control[0] - control[0] % 2, |WitnessBytes(wit)| + 50, annex)
  }

  ghost predicate TaprootSpend(env: Env, wit: Stack, program: Bytes) {
    || (exists sig, annex :: KeyPathSpend(env, wit, program, sig, annex))
    || (exists args, script, control, annex :: ScriptPathSpend(env, wit, program, args, script, control, annex))
  }

  /** How a witness can satisfy a program. A program of another version or size is open, and
      so is a taproot program inside P2SH or without its flag. */
  ghost predicate Satisfies(env: Env, wit: Stack, p: Program, isP2sh: bool) {
    if p.version == 0 then
      || (|p.program| == 32 && exists args, script :: ScriptHashSpend(env, wit, p.program, args, script))
      || (|p.program| == 20 && exists sig, key :: KeyHashSpend(env, wit, p.program, sig, key))
    else if p.version == 1 && |p.program| == 32 && !isP2sh then
      VerifyTaproot in env.flags ==> TaprootSpend(env, wit, p.program)
    else
      || VerifyDiscourageUpgradableWitnessProgram !in env.flags
      || (p.version == 1 && p.program == [0x4e, 0x73] && !isP2sh)
  }

  lemma V0Commits(env: Env, wit: Stack, program: Bytes)
    ensures VerifyV0(env, wit, program).Ok? <==> Satisfies(env, wit, Program(0, program), false)
  {
    hide VerifyV0, EndsTrue, PairEncoding;
    if |program| == 32 {
      ScriptHashCommits(env, [], [], program);
      if wit != [] {
        PopLast(wit);
        ScriptHashCommits(env, Pop(wit), Last(wit), program);
        assert VerifyV0(env, wit, program).Ok? ==> ScriptHashSpend(env, wit, program, Pop(wit), Last(wit));
      }
      if args, script :| ScriptHashSpend(env, wit, program, args, script) {
        ScriptHashCommits(env, args, script, program);
      }
    } else if |program| == 20 {
      KeyHashCommits(env, wit, program);
      if |wit| == 2 {
        assert wit == [wit[0], wit[1]];
        assert VerifyV0(env, wit, program).Ok? ==> KeyHashSpend(env, wit, program, wit[0], wit[1]);
      }
    } else {
      OtherLengths(env, wit, program);
    }
  }

  lemma PopLast(s: Stack)
    requires s != []
    ensures Pop(s) + [Last(s)] == s
  {
  }

  lemma OtherLengths(env: Env, wit: Stack, program: Bytes)
    requires |program| != 32 && |program| != 20
    ensures VerifyV0(env, wit, program).Err?
  {
  }

  lemma TaprootCommits(env: Env, wit: Stack, program: Bytes)
    requires VerifyTaproot in env.flags && |program| == 32
    ensures VerifyTaprootSpend(env, wit, program).Ok? <==> TaprootSpend(env, wit, program)
  {
    hide VerifyTaprootSpend, InTree, LeafAccepts, WitnessBytes, AnnexExec;
    if wit == [] {
      NoWitness(env, program);
      forall sig, annex ensures !KeyPathSpend(env, wit, program, sig, annex) { assert |[sig] + AnnexItems(annex)| > 0; }
      forall args, script, control, annex
        ensures !ScriptPathSpend(env, wit, program, args, script, control, annex)
      {
        assert |args + [script, control] + AnnexItems(annex)| > 0;
      }
    } else {
      TaprootForm(env, wit, program);
      if sig, annex :| KeyPathSpend(env, wit, program, sig, annex) { KeyPathCommits(env, sig, annex, program); }
      if args, script, control, annex :| ScriptPathSpend(env, wit, program, args, script, control, annex) {
        ScriptPathCommits(env, args, script, control, annex, program);
      }
    }
  }

  lemma NoWitness(env: Env, program: Bytes)
    requires VerifyTaproot in env.flags && |program| == 32
    ensures VerifyTaprootSpend(env, [], program).Err?
  {
  }

  /** Every witness has one of the two forms. */
  lemma TaprootForm(env: Env, wit: Stack, program: Bytes)
    requires VerifyTaproot in env.flags && |program| == 32 && wit != []
    ensures VerifyTaprootSpend(env, wit, program).Ok? ==> TaprootSpend(env, wit, program)
  {
    hide VerifyTaprootSpend, InTree, LeafAccepts, WitnessBytes, AnnexExec;
    var annex := if |wit| >= 2 && IsAnnex(Last(wit)) then Some(Last(wit)) else None;
    var stack := if annex.Some? then Pop(wit) else wit;
    PopLast(wit);
    assert stack + AnnexItems(annex) == wit;
    if |stack| == 1 {
      assert stack == [stack[0]];
      KeyPathCommits(env, stack[0], annex, program);
      assert VerifyTaprootSpend(env, wit, program).Ok? ==> KeyPathSpend(env, wit, program, stack[0], annex);
    } else {
      var args, script, control := Pop(Pop(stack)), Last(Pop(stack)), Last(stack);
      assert stack == args + [script, control];
      ScriptPathCommits(env, args, script, control, annex, program);
      assert VerifyTaprootSpend(env, wit, program).Ok? ==>
        ScriptPathSpend(env, wit, program, args, script, control, annex);
    }
  }

  /** A program is accepted exactly when the witness satisfies it. */
  lemma ProgramCommits(env: Env, wit: Stack, p: Program, isP2sh: bool)
    ensures VerifyProgram(env, wit, p, isP2sh).Ok? <==> Satisfies(env, wit, p, isP2sh)
  {
    hide VerifyV0, VerifyTaprootSpend, TaprootSpend;
    if p.version == 0 {
      V0Commits(env, wit, p.program);
    } else if p.version == 1 && |p.program| == 32 && !isP2sh {
      if VerifyTaproot in env.flags { TaprootCommits(env, wit, p.program); } else { Unchecked(env, wit, p.program); }
    }
  }

  lemma Unchecked(env: Env, wit: Stack, program: Bytes)
    requires VerifyTaproot !in env.flags && |program| == 32
    ensures VerifyTaprootSpend(env, wit, program).Ok?
  {
  }

  // ---- Output forms --------------------------------------------------------------------

  /** A witness program is a version opcode and one push of 2 to 40 bytes, and nothing else. */
  lemma ProgramForm(script: Bytes, version: Byte, program: Bytes)
    ensures WitnessProgram(script) == Some(Program(version, program)) <==>
            && version <= 16 && 2 <= |program| <= 40
            && script == [if version == 0 then 0 else 0x50 + version, |program|] + program
  {
    if WitnessProgram(script) == Some(Program(version, program)) {
      assert script == script[..2] + script[2..] && script[..2] == [script[0], script[1]];
    }
    if version <= 16 && 2 <= |program| <= 40 {
      var s := [if version == 0 then 0 else 0x50 + version, |program|] + program;
      assert s[2..] == program;
    }
  }

  lemma P2shForm(script: Bytes)
    ensures IsP2sh(script) <==> |script| == 23 && script == [0xa9, 0x14] + script[2..22] + [0x87]
  {
    if IsP2sh(script) {
      assert script == script[..2] + script[2..22] + script[22..];
      assert script[..2] == [0xa9, 0x14] && script[22..] == [0x87];
    }
    if |script| == 23 && script == [0xa9, 0x14] + script[2..22] + [0x87] {
      var h := script[2..22];
      assert ([0xa9, 0x14] + h + [0x87])[22] == 0x87;
    }
  }

  // ---- Whole spends --------------------------------------------------------------------

  predicate EndsInTrue(stack: Stack) { stack != [] && CastToBool(Last(stack)) }

  /** The flags make this script's program count. */
  predicate HasProgram(env: Env, script: Bytes) { VerifyWitness in env.flags && WitnessProgram(script).Some? }

  predicate Nested(env: Env, script: Bytes) { VerifyP2sh in env.flags && IsP2sh(script) }

  /** The redeem script, left on top by the scriptSig. */
  ghost predicate RedeemAccepts(env: Env, scriptSig: Bytes, wit: Stack, saved: Stack, ed: ExecData)
    requires env.sv == Base
  {
    && PushOnly(scriptSig, 0) && saved != []
    && var redeem := Last(saved);
    && EvalResult(env, redeem, Pop(saved), ed).Ok?
    && var end := EvalResult(env, redeem, Pop(saved), ed).value.stack;
    && EndsInTrue(end)
    && (HasProgram(env, redeem) ==>
          scriptSig == [|redeem|] + redeem && Satisfies(env, wit, WitnessProgram(redeem).value, true))
    && (VerifyCleanStack in env.flags && !HasProgram(env, redeem) ==> |end| == 1)
    && (VerifyWitness in env.flags && wit != [] ==> HasProgram(env, redeem))
  }

  ghost predicate OutputAccepts(env: Env, scriptSig: Bytes, script: Bytes, wit: Stack, end: Stack) {
    && (HasProgram(env, script) ==> scriptSig == [] && Satisfies(env, wit, WitnessProgram(script).value, false))
    && (VerifyCleanStack in env.flags && !HasProgram(env, script) ==> |end| == 1)
    && (VerifyWitness in env.flags && wit != [] ==> HasProgram(env, script))
  }

  /** What it takes to spend an output. */
  ghost predicate Spendable(env: Env, scriptSig: Bytes, scriptPubKey: Bytes, wit: Stack)
    requires env.sv == Base
  {
    && (VerifySigPushOnly in env.flags ==> PushOnly(scriptSig, 0))
    && EvalResult(env, scriptSig, [], FRESH_EXEC_DATA).Ok?
    && var saved := EvalResult(env, scriptSig, [], FRESH_EXEC_DATA).value;
    && EvalResult(env, scriptPubKey, saved.stack, saved.exec).Ok?
    && var end := EvalResult(env, scriptPubKey, saved.stack, saved.exec).value;
    && EndsInTrue(end.stack)
    && if Nested(env, scriptPubKey) then RedeemAccepts(env, scriptSig, wit, saved.stack, end.exec)
       else OutputAccepts(env, scriptSig, scriptPubKey, wit, end.stack)
  }

  lemma NotBoth(script: Bytes)
    requires IsP2sh(script)
    ensures WitnessProgram(script).None?
  {
  }

  lemma RedeemIff(env: Env, scriptSig: Bytes, wit: Stack, saved: Stack, ed: ExecData)
    requires env.sv == Base && saved != []
    ensures var r := RedeemSpend(env, scriptSig, wit, saved, ed);
            r.Ok? && Settle(env.flags, wit, r.value).Ok? <==> RedeemAccepts(env, scriptSig, wit, saved, ed)
  {
    hide EvalResult, PushOnly, VerifyProgram, Satisfies, CastToBool, WitnessProgram;
    var redeem := Last(saved);
    if WitnessProgram(redeem).Some? {
      ProgramCommits(env, wit, WitnessProgram(redeem).value, true);
      SinglePush(redeem);
    }
  }

  lemma SinglePush(redeem: Bytes)
    requires WitnessProgram(redeem).Some?
    ensures |redeem| <= 42 && Encode(DirectPush(redeem)) == [|redeem|] + redeem
  {
  }

  lemma OutputIff(env: Env, scriptSig: Bytes, script: Bytes, wit: Stack, end: Stack)
    requires end != []
    ensures var r := BareSpend(env, scriptSig, script, wit, end);
            r.Ok? && Settle(env.flags, wit, r.value).Ok? <==> OutputAccepts(env, scriptSig, script, wit, end)
  {
    hide VerifyProgram, Satisfies, WitnessProgram;
    if WitnessProgram(script).Some? { ProgramCommits(env, wit, WitnessProgram(script).value, false); }
  }

  /** A spend is accepted exactly when the output is spendable so, over every flag set. */
  lemma AcceptedIff(env: Env, scriptSig: Bytes, scriptPubKey: Bytes, wit: Stack)
    requires env.sv == Base
    ensures VerifyScript(env, scriptSig, scriptPubKey, wit).Ok? <==> Spendable(env, scriptSig, scriptPubKey, wit)
  {
    hide EvalResult, PushOnly, RedeemAccepts, OutputAccepts, CastToBool, RedeemSpend, IsP2sh, WitnessPart, Settle;
    var saved := EvalResult(env, scriptSig, [], FRESH_EXEC_DATA);
    if saved.Ok? {
      var end := EvalResult(env, scriptPubKey, saved.value.stack, saved.value.exec);
      if end.Ok? && EndsInTrue(end.value.stack) {
        if Nested(env, scriptPubKey) {
          P2shNeedsItem(env, scriptPubKey, saved.value);
          NotBoth(scriptPubKey);
          BareNested(env, scriptSig, scriptPubKey, wit, end.value.stack);
          RedeemIff(env, scriptSig, wit, saved.value.stack, end.value.exec);
        } else {
          OutputIff(env, scriptSig, scriptPubKey, wit, end.value.stack);
        }
      }
    }
  }

  lemma BareNested(env: Env, scriptSig: Bytes, script: Bytes, wit: Stack, end: Stack)
    requires end != [] && WitnessProgram(script).None?
    ensures BareSpend(env, scriptSig, script, wit, end) == Ok(Spent(false, end))
  {
  }

  // ---- P2SH ----------------------------------------------------------------------------

  lemma PushOrFull(env: Env, script: Bytes, t: Token, st: State)
    requires env.sv == Base && st.codeStart <= |script| && st.conds == []
    requires t.instr.opcode == 0x14 && |t.instr.data| == 20
    ensures var r := Step(env, script, t, st);
            r.Next? ==> r == Next(st.(stack := st.stack + [t.instr.data], pos := st.pos + 1))
  {
    hide ExecOp, MinimalPush;
    assert AllTrue(st.conds);
  }

  lemma HashOrEqual(env: Env, script: Bytes, t: Token, st: State)
    requires env.sv == Base && st.codeStart <= |script| && st.conds == [] && st.ops < 201
    requires t.instr.data == [] && t.instr.opcode in {0xa9, 0x87} && DataOp(env, t.instr.opcode, st.stack).Ok?
    ensures var r, s := Step(env, script, t, st), DataOp(env, t.instr.opcode, st.stack).value;
            r.Next? ==> r == Next(st.(stack := s, pos := st.pos + 1, ops := st.ops + 1))
  {
    hide DataOp;
    StepExec(env, script, t, st);
  }

  /** A P2SH script that ends in true has found the hash of the top item in itself. */
  lemma P2shChecksHash(env: Env, hash: Hash20, rest: Stack, redeem: Bytes, ed: ExecData)
    requires env.sv == Base
    ensures var r := EvalResult(env, P2shScript(hash), rest + [redeem], ed);
            r.Ok? ==> r.value.stack == rest + [Truth(Hash160(env.crypto, redeem) == hash)]
  {
    hide Step, DataOp, Run, ReadAt, P2shScript;
    var s, h := P2shScript(hash), Hash160(env.crypto, redeem);
    var a, b, c := Token(Instr(0xa9, []), 1), Token(Instr(0x14, hash), 22), Token(Instr(0x87, []), 23);
    P2shTokens(hash);
    var st := Initial(rest + [redeem], ed);
    HashLaws(env, rest, redeem);
    HashOrEqual(env, s, a, st);
    RunNext(env, s, 0, a, st);
    if Step(env, s, a, st).Next? {
      var st1 := st.(stack := rest + [h], pos := 1, ops := 1);
      PushOrFull(env, s, b, st1);
      RunNext(env, s, 1, b, st1);
      if Step(env, s, b, st1).Next? {
        assert rest + [h] + [hash] == rest + [h, hash];
        var st2 := st1.(stack := rest + [h, hash], pos := 2);
        EqualLaws(env, rest, h, hash);
        HashOrEqual(env, s, c, st2);
        RunNext(env, s, 22, c, st2);
        RunEnds(env, s, Step(env, s, c, st2));
      }
    }
  }

  /** In an accepted spend that looks at programs, the witness satisfies the output's own
      program, or the redeem script's, whose hash the output commits to. */
  lemma SpendCommits(env: Env, scriptSig: Bytes, scriptPubKey: Bytes, wit: Stack)
    requires env.sv == Base && VerifyScript(env, scriptSig, scriptPubKey, wit).Ok?
    ensures HasProgram(env, scriptPubKey) ==>
              scriptSig == [] && Satisfies(env, wit, WitnessProgram(scriptPubKey).value, false)
    ensures Nested(env, scriptPubKey) ==>
              && EvalResult(env, scriptSig, [], FRESH_EXEC_DATA).Ok?
              && var saved := EvalResult(env, scriptSig, [], FRESH_EXEC_DATA).value.stack;
              && saved != []
              && var redeem := Last(saved);
              && env.crypto.ripemd160(env.crypto.sha256(redeem)) == scriptPubKey[2..22]
              && (HasProgram(env, redeem) ==>
                    scriptSig == [|redeem|] + redeem && Satisfies(env, wit, WitnessProgram(redeem).value, true))
  {
    hide EvalResult, PushOnly, Satisfies, CastToBool, IsP2sh, WitnessProgram, VerifyScript;
    AcceptedIff(env, scriptSig, scriptPubKey, wit);
    if Nested(env, scriptPubKey) {
      var saved := EvalResult(env, scriptSig, [], FRESH_EXEC_DATA).value;
      P2shForm(scriptPubKey);
      PopLast(saved.stack);
      P2shChecksHash(env, scriptPubKey[2..22], Pop(saved.stack), Last(saved.stack), saved.exec);
      TopOne(Pop(saved.stack), Truth(Hash160(env.crypto, Last(saved.stack)) == scriptPubKey[2..22]));
      OneIsTrue();
      NotBoth(scriptPubKey);
    }
  }
}
