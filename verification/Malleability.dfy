/** Under SIGPUSHONLY and MINIMALDATA a scriptSig is determined by the stack it leaves. */
module Malleability {
  import opened ScriptTypes
  import opened ScriptNum
  import opened Condition
  import opened Grammar
  import opened Encoding
  import opened Machine
  import opened VerifySpec
  import opened P2shWrap

  /** The one minimal instruction that pushes an item. */
  function CanonicalPush(item: Bytes): (i: Instr)
    requires |item| <= MAX_SCRIPT_ELEMENT_SIZE
    ensures WellFormed(i)
  {
    if |item| == 1 && 1 <= item[0] <= 16 then Instr(0x50 + item[0], [])
    else if item == [0x81] then Instr(0x4f, [])
    else DirectPush(item)
  }

  function CanonicalPushes(items: Stack): (r: seq<Instr>)
    requires Fits(items)
    ensures AllWellFormed(r)
  {
    if items == [] then [] else [CanonicalPush(items[0])] + CanonicalPushes(items[1..])
  }

  lemma SmallNumbers(n: int)
    requires 1 <= n <= 16 || n == -1
    ensures Serialize(n) == if n == -1 then [0x81] else [n]
  {
    assert LeDigits(Abs(n)) == [Abs(n)] + LeDigits(0);
  }

  /** A push of at most 520 bytes is minimal exactly when it is the canonical one. */
  lemma MinimalIsCanonical(i: Instr)
    requires i.opcode <= OP_PUSHDATA4 && WellFormed(i) && |i.data| <= MAX_SCRIPT_ELEMENT_SIZE
    ensures MinimalPush(i.data, i.opcode) <==> i == CanonicalPush(i.data)
  {
    if |i.data| == 1 { assert i.data == [i.data[0]]; }
  }

  /** A push instruction that the machine executes under MINIMALDATA pushes one item, and
      is that item's canonical push. */
  lemma PushStep(env: Env, script: Bytes, t: Token, st: State)
    requires env.sv == Base && st.codeStart <= |script| && st.conds == []
    requires VerifyMinimalData in env.flags && WellFormed(t.instr) && t.instr.opcode <= OP_16
    requires Step(env, script, t, st).Next?
    ensures var st' := Step(env, script, t, st).st;
            && st'.conds == [] && st'.codeStart == st.codeStart
            && st'.stack != [] && Pop(st'.stack) == st.stack
            && |Last(st'.stack)| <= MAX_SCRIPT_ELEMENT_SIZE
            && t.instr == CanonicalPush(Last(st'.stack))
  {
    hide Serialize, MinimalPush, CanonicalPush, DirectPush, NumericOp;
    var op := t.instr.opcode;
    assert AllTrue(st.conds);
    if op <= OP_PUSHDATA4 {
      MinimalIsCanonical(t.instr);
    } else {
      assert op != 0x50;
      SmallNumbers(op - 0x50);
      CanonicalSmall(op - 0x50);
    }
  }

  lemma CanonicalSmall(n: int)
    requires 1 <= n <= 16 || n == -1
    ensures CanonicalPush(if n == -1 then [0x81] else [n]) == Instr(0x50 + n, [])
  {
  }

  lemma CanonicalSnoc(items: Stack, item: Bytes)
    requires Fits(items) && |item| <= MAX_SCRIPT_ELEMENT_SIZE
    ensures CanonicalPushes([item] + items) == [CanonicalPush(item)] + CanonicalPushes(items)
  {
    assert ([item] + items)[1..] == items;
  }

  lemma NoPushes()
    ensures CanonicalPushes([]) == []
  {
  }

  lemma OnlyPushesTail(i: Instr, rest: seq<Instr>)
    requires OnlyPushes([i] + rest)
    ensures i.opcode <= OP_16 && OnlyPushes(rest)
  {
    assert ([i] + rest)[0] == i;
    assert forall k :: 0 <= k < |rest| ==> rest[k] == ([i] + rest)[k + 1];
  }

  /** One more item at the bottom of what was pushed is one more push in front. */
  lemma AddPush(before: Stack, after: Stack, end: Stack)
    requires after != [] && Pop(after) == before && |Last(after)| <= MAX_SCRIPT_ELEMENT_SIZE
    requires after <= end && Fits(end[|after|..])
    ensures before <= end && Fits(end[|before|..])
    ensures CanonicalPushes(end[|before|..]) == [CanonicalPush(Last(after))] + CanonicalPushes(end[|after|..])
  {
    hide CanonicalPush;
    var item, rest := Last(after), end[|after|..];
    assert end[|before|] == item && end[|before|..] == [item] + rest;
    CanonicalSnoc(rest, item);
  }

  lemma {:induction false} RunOfPushes(env: Env, script: Bytes, pc: nat, st: State)
    requires env.sv == Base && st.codeStart <= |script| && st.conds == [] && pc <= |script|
    requires VerifyMinimalData in env.flags && OnlyPushes(Instrs(script, pc))
    requires Run(env, script, pc, st).Next?
    ensures Parses(script, pc)
    ensures var end := Run(env, script, pc, st).st.stack;
            && st.stack <= end && Fits(end[|st.stack|..])
            && Instrs(script, pc) == CanonicalPushes(end[|st.stack|..])
    decreases |script| - pc
  {
    hide Step, CanonicalPush, HeaderFits, Target, Encode, CanonicalPushes;
    if pc < |script| {
      var t := ReadAt(script, pc).value;
      EncodeRead(script, pc);
      OnlyPushesTail(t.instr, Instrs(script, t.next));
      PushStep(env, script, t, st);
      var st' := Step(env, script, t, st).st;
      RunOfPushes(env, script, t.next, st');
      AddPush(st.stack, st'.stack, Run(env, script, pc, st).st.stack);
    } else {
      assert st.stack[|st.stack|..] == [] && CanonicalPushes([]) == [] by { NoPushes(); }
    }
  }

  /** What the scriptSig must be, byte for byte. */
  lemma ScriptSigIsCanonical(env: Env, scriptSig: Bytes, ed: ExecData)
    requires env.sv == Base && VerifyMinimalData in env.flags && PushOnly(scriptSig, 0)
    requires EvalResult(env, scriptSig, [], ed).Ok?
    ensures var stack := EvalResult(env, scriptSig, [], ed).value.stack;
            Fits(stack) && scriptSig == Unparse(CanonicalPushes(stack))
  {
    hide Run, CanonicalPush;
    RunOfPushes(env, scriptSig, 0, Initial([], ed));
    UnparseInstrs(scriptSig, 0);
    var stack := EvalResult(env, scriptSig, [], ed).value.stack;
    assert stack[0..] == stack && scriptSig[0..] == scriptSig;
  }

  /** Two push-only scriptSigs that leave the same stack are the same bytes. */
  lemma ScriptSigUnique(env: Env, a: Bytes, b: Bytes, ed: ExecData)
    requires env.sv == Base && VerifyMinimalData in env.flags && PushOnly(a, 0) && PushOnly(b, 0)
    requires EvalResult(env, a, [], ed).Ok? && EvalResult(env, b, [], ed).Ok?
    requires EvalResult(env, a, [], ed).value.stack == EvalResult(env, b, [], ed).value.stack
    ensures a == b
  {
    hide EvalResult, CanonicalPushes, Unparse;
    ScriptSigIsCanonical(env, a, ed);
    ScriptSigIsCanonical(env, b, ed);
  }

  // ---- The canonical script exists -----------------------------------------------------

  lemma CanonicalStep(env: Env, script: Bytes, next: nat, item: Bytes, st: State)
    requires env.sv == Base && st.codeStart <= |script| && st.conds == []
    requires |item| <= MAX_SCRIPT_ELEMENT_SIZE && |st.stack| + |st.alt| < MAX_STACK_SIZE
    ensures Step(env, script, Token(CanonicalPush(item), next), st) ==
            Next(st.(stack := st.stack + [item], pos := st.pos + 1))
  {
    hide CanonicalPush, MinimalPush, Serialize;
    assert AllTrue(st.conds);
    if |item| == 1 && 1 <= item[0] <= 16 {
      assert item == [item[0]];
      CanonicalSmall(item[0]);
      SmallNumbers(item[0]);
    } else if item == [0x81] {
      CanonicalSmall(-1);
      SmallNumbers(-1);
    } else {
      assert CanonicalPush(item) == DirectPush(item) by { NotSmall(item); }
      MinimalIsCanonical(DirectPush(item));
      StepPush(env, script, Token(DirectPush(item), next), st);
    }
  }

  lemma NotSmall(item: Bytes)
    requires |item| <= MAX_SCRIPT_ELEMENT_SIZE && !(|item| == 1 && 1 <= item[0] <= 16) && item != [0x81]
    ensures CanonicalPush(item) == DirectPush(item)
  {
  }

  lemma {:induction false} CanonicalRun(env: Env, pre: Bytes, items: Stack, st: State)
    requires env.sv == Base && st.codeStart <= |pre| && st.conds == []
    requires Fits(items) && |st.stack| + |items| + |st.alt| <= MAX_STACK_SIZE
    ensures Run(env, pre + Unparse(CanonicalPushes(items)), |pre|, st) ==
            Next(st.(stack := st.stack + items, pos := st.pos + |items|))
    decreases |items|
  {
    hide Step, CanonicalPush, Encode, HeaderFits, Target;
    var script := pre + Unparse(CanonicalPushes(items));
    if items == [] {
      assert script == pre && st.stack + items == st.stack;
    } else {
      var i, rest := CanonicalPush(items[0]), Unparse(CanonicalPushes(items[1..]));
      var pre' := pre + Encode(i);
      assert CanonicalPushes(items)[1..] == CanonicalPushes(items[1..]);
      assert script == pre' + rest;
      ReadEncode(pre, i, rest);
      CanonicalStep(env, script, |pre'|, items[0], st);
      var st' := st.(stack := st.stack + [items[0]], pos := st.pos + 1);
      assert Run(env, script, |pre|, st) == Run(env, script, |pre'|, st');
      CanonicalRun(env, pre', items[1..], st');
      assert st.stack + [items[0]] + items[1..] == st.stack + items;
    }
  }

  /** Every stack of at most 1000 items of at most 520 bytes whose canonical script is within
      the size limit is reached, by that script, under every flag set. */
  lemma CanonicalScriptWorks(env: Env, items: Stack, ed: ExecData)
    requires env.sv == Base && Fits(items) && |items| <= MAX_STACK_SIZE
    requires |Unparse(CanonicalPushes(items))| <= MAX_SCRIPT_SIZE
    ensures EvalResult(env, Unparse(CanonicalPushes(items)), [], ed) == Ok(Evaluated(items, After(ed)))
    ensures PushOnly(Unparse(CanonicalPushes(items)), 0)
  {
    hide Run, CanonicalPushes;
    var script := Unparse(CanonicalPushes(items));
    assert [] + script == script && [] + items == items;
    CanonicalRun(env, [], items, Initial([], ed));
    InstrsUnparse([], CanonicalPushes(items));
    CanonicalOnlyPushes(items);
  }

  lemma {:induction false} CanonicalOnlyPushes(items: Stack)
    requires Fits(items)
    ensures OnlyPushes(CanonicalPushes(items))
  {
    if items != [] { CanonicalOnlyPushes(items[1..]); }
  }
}
