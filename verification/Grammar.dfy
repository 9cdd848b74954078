/** The instruction grammar: one opcode byte, for pushes a length and that many data bytes.
    The five walkers of the engine are proved to visit the boundaries defined here. */
module Grammar {
  import opened ScriptTypes

  datatype Instr = Instr(opcode: Byte, data: Bytes)
  datatype Token = Token(instr: Instr, next: nat)

  const OP_PUSHDATA1: Byte := 0x4c
  const OP_PUSHDATA2: Byte := 0x4d
  const OP_PUSHDATA4: Byte := 0x4e
  const OP_16: Byte := 0x60

  function Le16(a: nat, b: nat): nat { a + 0x100 * b }

  function Le32(a: nat, b: nat, c: nat, d: nat): nat { a + 0x100 * (b + 0x100 * (c + 0x100 * d)) }

  // ---- Reading -------------------------------------------------------------------------

  function HeaderSize(opcode: Byte): nat {
    if opcode == OP_PUSHDATA1 then 2 else if opcode == OP_PUSHDATA2 then 3
    else if opcode == OP_PUSHDATA4 then 5 else 1
  }

  predicate HeaderFits(script: Bytes, pc: nat)
    requires pc < |script|
  {
    pc + HeaderSize(script[pc]) <= |script|
  }

  function DataSize(script: Bytes, pc: nat): nat
    requires pc < |script| && HeaderFits(script, pc)
  {
    var opcode := script[pc];
    if opcode <= 75 then opcode
    else if opcode == OP_PUSHDATA1 then script[pc + 1]
    else if opcode == OP_PUSHDATA2 then Le16(script[pc + 1], script[pc + 2])
    else if opcode == OP_PUSHDATA4 then
      Le32(script[pc + 1], script[pc + 2], script[pc + 3], script[pc + 4])
    else 0
  }

  function Target(script: Bytes, pc: nat): (t: nat)
    requires pc < |script| && HeaderFits(script, pc)
    ensures t > pc
  {
    pc + HeaderSize(script[pc]) + DataSize(script, pc)
  }

  /** The instruction at a boundary, or None at the end or when it is cut short. */
  function ReadAt(script: Bytes, pc: nat): (r: Option<Token>)
    ensures r.Some? ==> pc < r.value.next <= |script|
  {
    if pc >= |script| || !HeaderFits(script, pc) || Target(script, pc) > |script| then None
    else
      var t := Target(script, pc);
      Some(Token(Instr(script[pc], script[pc + HeaderSize(script[pc])..t]), t))
  }

  /** The instructions from a boundary up to the end or to the first fault. */
  function Instrs(script: Bytes, pc: nat): seq<Instr>
    decreases |script| - pc
  {
    match ReadAt(script, pc)
    case None => []
    case Some(t) => [t.instr] + Instrs(script, t.next)
  }

  /** Every instruction from this boundary on is complete. */
  predicate Parses(script: Bytes, pc: nat)
    decreases |script| - pc
  {
    pc == |script| || (ReadAt(script, pc).Some? && Parses(script, ReadAt(script, pc).value.next))
  }

  // ---- Writing, the partner of reading -------------------------------------------------

  predicate WellFormed(i: Instr) {
    if i.opcode <= 75 then |i.data| == i.opcode
    else if i.opcode == OP_PUSHDATA1 then |i.data| < 0x100
    else if i.opcode == OP_PUSHDATA2 then |i.data| < 0x1_0000
    else if i.opcode == OP_PUSHDATA4 then |i.data| < 0x1_0000_0000
    else i.data == []
  }

  function Header(i: Instr): (r: Bytes)
    requires WellFormed(i)
    ensures |r| == HeaderSize(i.opcode) && r[0] == i.opcode
  {
    var n := |i.data|;
    if i.opcode == OP_PUSHDATA1 then [i.opcode, n]
    else if i.opcode == OP_PUSHDATA2 then [i.opcode, n % 0x100, n / 0x100]
    else if i.opcode == OP_PUSHDATA4 then
      [i.opcode, n % 0x100, n / 0x100 % 0x100, n / 0x100 / 0x100 % 0x100, n / 0x100 / 0x100 / 0x100]
    else [i.opcode]
  }

  function Encode(i: Instr): (r: Bytes)
    requires WellFormed(i)
    ensures r != []
  {
    Header(i) + i.data
  }

  predicate AllWellFormed(instrs: seq<Instr>) {
    forall k :: 0 <= k < |instrs| ==> WellFormed(instrs[k])
  }

  function Unparse(instrs: seq<Instr>): Bytes
    requires AllWellFormed(instrs)
  {
    if instrs == [] then [] else Encode(instrs[0]) + Unparse(instrs[1..])
  }

  /** The four length bytes of OP_PUSHDATA4 are the base-256 digits of the length. */
  lemma Digits4Unique(a: Byte, b: Byte, c: Byte, d: Byte)
    ensures var n := Le32(a, b, c, d);
            n % 0x100 == a && n / 0x100 % 0x100 == b && n / 0x100 / 0x100 % 0x100 == c &&
            n / 0x100 / 0x100 / 0x100 == d
  {
    var m2: nat := c + 0x100 * d;
    var m1: nat := b + 0x100 * m2;
    DivStep(a, m1);
    DivStep(b, m2);
    DivStep(c, d);
  }

  lemma DivStep(a: Byte, m: nat)
    ensures (a + 0x100 * m) % 0x100 == a && (a + 0x100 * m) / 0x100 == m
  {
  }

  /** What is written is read back, at any place in any script. */
  lemma ReadEncode(pre: Bytes, i: Instr, rest: Bytes)
    requires WellFormed(i)
    ensures ReadAt(pre + Encode(i) + rest, |pre|) == Some(Token(i, |pre| + |Encode(i)|))
  {
    hide DataSize, Header, WellFormed;
    var s, pc := pre + Encode(i) + rest, |pre|;
    assert s[pc..pc + |Header(i)|] == Header(i);
    SizeRead(s, pc, i);
    assert s[pc + HeaderSize(i.opcode)..pc + |Encode(i)|] == i.data;
  }

  lemma SizeRead(s: Bytes, pc: nat, i: Instr)
    requires WellFormed(i) && pc + |Header(i)| <= |s| && s[pc..pc + |Header(i)|] == Header(i)
    ensures |Header(i)| == HeaderSize(i.opcode) && s[pc] == i.opcode && DataSize(s, pc) == |i.data|
  {
    var h := s[pc..pc + |Header(i)|];
    assert s[pc] == h[0];
    if i.opcode == OP_PUSHDATA2 {
      assert s[pc + 1] == h[1] && s[pc + 2] == h[2];
    } else if i.opcode == OP_PUSHDATA4 {
      assert s[pc + 1] == h[1] && s[pc + 2] == h[2] && s[pc + 3] == h[3] && s[pc + 4] == h[4];
    } else if i.opcode == OP_PUSHDATA1 {
      assert s[pc + 1] == h[1];
    }
  }

  lemma HeaderRead(script: Bytes, pc: nat)
    requires ReadAt(script, pc).Some?
    ensures var i := ReadAt(script, pc).value.instr;
            WellFormed(i) && script[pc..pc + HeaderSize(script[pc])] == Header(i)
  {
    var op := script[pc];
    var i := ReadAt(script, pc).value.instr;
    assert |i.data| == DataSize(script, pc);
    if op == OP_PUSHDATA1 {
      assert script[pc..pc + 2] == [op, script[pc + 1]];
    } else if op == OP_PUSHDATA2 {
      DivStep(script[pc + 1], script[pc + 2]);
      assert script[pc..pc + 3] == [op, script[pc + 1], script[pc + 2]];
    } else if op == OP_PUSHDATA4 {
      Digits4Unique(script[pc + 1], script[pc + 2], script[pc + 3], script[pc + 4]);
      assert script[pc..pc + 5] == [op, script[pc + 1], script[pc + 2], script[pc + 3], script[pc + 4]];
    } else {
      assert script[pc..pc + 1] == [op];
    }
  }

  /** What is read is the encoding of the instruction that was read. */
  lemma EncodeRead(script: Bytes, pc: nat)
    requires ReadAt(script, pc).Some?
    ensures var t := ReadAt(script, pc).value;
            WellFormed(t.instr) && script[pc..t.next] == Encode(t.instr)
  {
    var t := ReadAt(script, pc).value;
    var h := HeaderSize(script[pc]);
    assert WellFormed(t.instr);
    HeaderRead(script, pc);
    assert script[pc..t.next] == script[pc..pc + h] + script[pc + h..t.next];
  }

  /** Cutting off everything before a boundary does not change the instructions. */
  lemma {:induction false} Suffix(script: Bytes, pc: nat, at: nat)
    requires pc <= at <= |script|
    ensures Instrs(script[pc..], at - pc) == Instrs(script, at)
    ensures Parses(script[pc..], at - pc) == Parses(script, at)
    decreases |script| - at
  {
    hide DataSize, HeaderSize, HeaderFits, Target;
    ReadSuffix(script, pc, at);
    match ReadAt(script, at)
    case None =>
    case Some(t) => Suffix(script, pc, t.next);
  }

  lemma ReadSuffix(script: Bytes, pc: nat, at: nat)
    requires pc <= at <= |script|
    ensures ReadAt(script[pc..], at - pc) ==
            match ReadAt(script, at) { case None => None case Some(t) => Some(Token(t.instr, t.next - pc)) }
  {
    var s := script[pc..];
    if at < |script| {
      assert s[at - pc] == script[at];
      if HeaderFits(script, at) {
        var h := HeaderSize(script[at]);
        assert DataSize(s, at - pc) == DataSize(script, at) by {
          if h == 5 {
            assert s[at - pc + 1] == script[at + 1] && s[at - pc + 2] == script[at + 2];
            assert s[at - pc + 3] == script[at + 3] && s[at - pc + 4] == script[at + 4];
          } else if h == 3 {
            assert s[at - pc + 1] == script[at + 1] && s[at - pc + 2] == script[at + 2];
          } else if h == 2 {
            assert s[at - pc + 1] == script[at + 1];
          }
        }
        var t := Target(script, at);
        if t <= |script| {
          assert s[at - pc + h..t - pc] == script[at + h..t];
        }
      }
    }
  }

  /** A script that parses to its end is the concatenation of its instructions... */
  lemma {:induction false} UnparseInstrs(script: Bytes, pc: nat)
    requires pc <= |script| && Parses(script, pc)
    ensures AllWellFormed(Instrs(script, pc)) && Unparse(Instrs(script, pc)) == script[pc..]
    decreases |script| - pc
  {
    hide Encode, WellFormed, ReadAt;
    if pc == |script| {
      NothingRead(script);
    } else {
      var t := ReadAt(script, pc).value;
      EncodeRead(script, pc);
      UnparseInstrs(script, t.next);
      UnparseCons(t.instr, Instrs(script, t.next));
      assert script[pc..] == script[pc..t.next] + script[t.next..];
    }
  }

  lemma NothingRead(script: Bytes)
    ensures Instrs(script, |script|) == []
  {
  }

  lemma UnparseCons(i: Instr, more: seq<Instr>)
    requires WellFormed(i) && AllWellFormed(more)
    ensures AllWellFormed([i] + more) && Unparse([i] + more) == Encode(i) + Unparse(more)
  {
    hide Encode, WellFormed;
    assert ([i] + more)[1..] == more;
  }

  /** ...and a concatenation of instructions parses to exactly those instructions. */
  lemma {:induction false} InstrsUnparse(pre: Bytes, instrs: seq<Instr>)
    requires AllWellFormed(instrs)
    ensures Parses(pre + Unparse(instrs), |pre|) && Instrs(pre + Unparse(instrs), |pre|) == instrs
    decreases |instrs|
  {
    hide DataSize, Header, Encode, HeaderFits;
    if instrs == [] {
      assert pre + [] == pre;
      assert ReadAt(pre, |pre|).None?;
    } else {
      var e, rest := Encode(instrs[0]), Unparse(instrs[1..]);
      var s := pre + e + rest;
      assert pre + Unparse(instrs) == s;
      ReadEncode(pre, instrs[0], rest);
      InstrsUnparse(pre + e, instrs[1..]);
      assert Instrs(s, |pre|) == [instrs[0]] + Instrs(s, |pre + e|);
    }
  }

  lemma WellFormedParts(a: seq<Instr>, b: seq<Instr>)
    requires AllWellFormed(a) && AllWellFormed(b) && a != []
    ensures AllWellFormed(a + b) && AllWellFormed(a[1..]) && WellFormed(a[0])
    ensures (a + b)[1..] == a[1..] + b && (a + b)[0] == a[0]
  {
    hide WellFormed;
  }

  lemma {:induction false} UnparseAppend(a: seq<Instr>, b: seq<Instr>)
    requires AllWellFormed(a) && AllWellFormed(b)
    ensures AllWellFormed(a + b) && Unparse(a + b) == Unparse(a) + Unparse(b)
  {
    if a == [] {
      assert a + b == b;
    } else {
      hide Encode, WellFormed, AllWellFormed;
      WellFormedParts(a, b);
      UnparseAppend(a[1..], b);
      Assoc(Encode(a[0]), Unparse(a[1..]), Unparse(b));
    }
  }

  // ---- Walker 1: read_instruction ------------------------------------------------------

  method ReadInstruction(script: Bytes, start: nat) returns (r: Option<Instr>, pc: nat)
    ensures r.Some? <==> ReadAt(script, start).Some?
    ensures r.Some? ==> ReadAt(script, start).value == Token(r.value, pc)
  {
    pc := start;
    if pc >= |script| { return None, pc; }
    var opcode := script[pc];
    pc := pc + 1;
    if opcode == 0 {
      assert script[start + 1..start + 1] == [];
      return Some(Instr(opcode, [])), pc;
    }
    var n: nat;
    if opcode <= 75 {
      n := opcode;
    } else if opcode == OP_PUSHDATA1 {
      if pc >= |script| { return None, pc; }
      n := script[pc];
      pc := pc + 1;
    } else if opcode == OP_PUSHDATA2 {
      if pc + 1 >= |script| { return None, pc; }
      n := Le16(script[pc], script[pc + 1]);
      pc := pc + 2;
    } else if opcode == OP_PUSHDATA4 {
      if pc + 3 >= |script| { return None, pc; }
      n := Le32(script[pc], script[pc + 1], script[pc + 2], script[pc + 3]);
      pc := pc + 4;
    } else {
      assert script[start + 1..start + 1] == [];
      return Some(Instr(opcode, [])), pc;
    }
    if pc + n > |script| { return None, pc; }
    var data := script[pc..pc + n];
    pc := pc + n;
    return Some(Instr(opcode, data)), pc;
  }

  // ---- Walker 2: is_push_only ----------------------------------------------------------

  predicate OnlyPushes(instrs: seq<Instr>) {
    forall k :: 0 <= k < |instrs| ==> instrs[k].opcode <= OP_16
  }

  /** Where the instruction list of a script that does not parse breaks off. */
  function Fault(script: Bytes, pc: nat): (f: nat)
    requires pc <= |script| && !Parses(script, pc)
    ensures pc <= f < |script| && ReadAt(script, f).None?
    decreases |script| - pc
  {
    match ReadAt(script, pc)
    case None => pc
    case Some(t) => Fault(script, t.next)
  }

  /** All complete instructions are pushes, and so is the last, incomplete one if there is
      one; of that one only a missing length is noticed, a missing tail is not. */
  predicate PushOnly(script: Bytes, pc: nat)
    requires pc <= |script|
  {
    && OnlyPushes(Instrs(script, pc))
    && (!Parses(script, pc) ==> HeaderFits(script, Fault(script, pc)))
  }

  lemma PushOnlyStep(script: Bytes, pc: nat)
    requires pc <= |script|
    ensures match ReadAt(script, pc)
            case Some(t) => PushOnly(script, pc) <==> t.instr.opcode <= OP_16 && PushOnly(script, t.next)
            case None => PushOnly(script, pc) <==> pc == |script| || HeaderFits(script, pc)
  {
    match ReadAt(script, pc)
    case None =>
    case Some(t) =>
      var rest := Instrs(script, t.next);
      assert Instrs(script, pc) == [t.instr] + rest;
      assert forall k :: 0 <= k < |rest| ==> Instrs(script, pc)[k + 1] == rest[k];
      assert OnlyPushes(Instrs(script, pc)) <==> t.instr.opcode <= OP_16 && OnlyPushes(rest) by {
        if OnlyPushes(Instrs(script, pc)) { assert Instrs(script, pc)[0] == t.instr; }
      }
  }

  method IsPushOnly(script: Bytes) returns (r: bool)
    ensures r <==> PushOnly(script, 0)
  {
    hide Instrs, Parses;
    PushOnlyStep(script, |script|);
    var pc := 0;
    while pc < |script|
      invariant pc <= |script| ==> (PushOnly(script, 0) <==> PushOnly(script, pc))
      invariant pc > |script| ==> PushOnly(script, 0)
      decreases |script| - pc
    {
      PushOnlyStep(script, pc);
      var opcode := script[pc];
      if opcode > 0x60 { return false; }
      pc := pc + 1;
      if opcode <= 75 {
        pc := pc + opcode;
      } else if opcode == 0x4c {
        if pc >= |script| { return false; }
        pc := pc + 1 + script[pc];
      } else if opcode == 0x4d {
        if pc + 1 >= |script| { return false; }
        var n := Le16(script[pc], script[pc + 1]);
        pc := pc + 2 + n;
      } else if opcode == 0x4e {
        if pc + 3 >= |script| { return false; }
        var n := Le32(script[pc], script[pc + 1], script[pc + 2], script[pc + 3]);
        pc := pc + 4 + n;
      }
    }
    return true;
  }

  // ---- Walker 3: scan_for_op_success ---------------------------------------------------

  predicate IsOpSuccess(opcode: Byte) {
    opcode == 80 || opcode == 98 || 126 <= opcode <= 129 || 131 <= opcode <= 134 ||
    137 <= opcode <= 138 || 141 <= opcode <= 142 || 149 <= opcode <= 153 || 187 <= opcode <= 254
  }

  /** Some complete instruction before the first fault is an OP_SUCCESS. */
  predicate HasOpSuccess(instrs: seq<Instr>) {
    exists k :: 0 <= k < |instrs| && IsOpSuccess(instrs[k].opcode)
  }

  lemma HasOpSuccessStep(script: Bytes, pc: nat)
    ensures match ReadAt(script, pc)
            case None => !HasOpSuccess(Instrs(script, pc))
            case Some(t) =>
              HasOpSuccess(Instrs(script, pc)) <==>
              IsOpSuccess(t.instr.opcode) || HasOpSuccess(Instrs(script, t.next))
  {
    match ReadAt(script, pc)
    case None =>
    case Some(t) =>
      var rest := Instrs(script, t.next);
      assert Instrs(script, pc) == [t.instr] + rest;
      if IsOpSuccess(t.instr.opcode) {
        assert Instrs(script, pc)[0] == t.instr;
      } else if HasOpSuccess(rest) {
        var k :| 0 <= k < |rest| && IsOpSuccess(rest[k].opcode);
        assert Instrs(script, pc)[k + 1] == rest[k];
      }
  }

  method ScanForOpSuccess(script: Bytes) returns (found: bool)
    ensures found <==> HasOpSuccess(Instrs(script, 0))
  {
    hide Instrs, HasOpSuccess;
    HasOpSuccessStep(script, |script|);
    var pc := 0;
    while pc < |script|
      invariant pc <= |script| ==> (HasOpSuccess(Instrs(script, 0)) <==> HasOpSuccess(Instrs(script, pc)))
      invariant pc > |script| ==> !HasOpSuccess(Instrs(script, 0))
      decreases |script| - pc
    {
      HasOpSuccessStep(script, pc);
      var opcode := script[pc];
      pc := pc + 1;
      if opcode <= 75 {
        pc := pc + opcode;
      } else if opcode == 0x4c {
        if pc >= |script| { return false; }
        pc := pc + 1 + script[pc];
      } else if opcode == 0x4d {
        if pc + 1 >= |script| { return false; }
        var n := Le16(script[pc], script[pc + 1]);
        pc := pc + 2 + n;
      } else if opcode == 0x4e {
        if pc + 3 >= |script| { return false; }
        var n := Le32(script[pc], script[pc + 1], script[pc + 2], script[pc + 3]);
        pc := pc + 4 + n;
      } else if IsOpSuccess(opcode) {
        return true;
      }
    }
    return false;
  }

  // ---- Walker 4: remove_codeseparators -------------------------------------------------

  const OP_CODESEPARATOR: Byte := 0xab

  function WithoutCodeSeparators(instrs: seq<Instr>): seq<Instr> {
    if instrs == [] then []
    else (if instrs[0].opcode == OP_CODESEPARATOR then [] else [instrs[0]]) + WithoutCodeSeparators(instrs[1..])
  }

  /** The bytes from a boundary on, separators left out. Past the first fault there are two
      cases: data that is cut short is kept to the end; a length that is cut short is passed
      over, and the bytes after the opcode are read as opcodes. */
  function CodeBytes(script: Bytes, pc: nat): Bytes
    decreases |script| - pc
  {
    if pc >= |script| then []
    else
      match ReadAt(script, pc)
      case Some(t) => (if script[pc] == OP_CODESEPARATOR then [] else script[pc..t.next]) + CodeBytes(script, t.next)
      case None => if HeaderFits(script, pc) then script[pc..] else [script[pc]] + CodeBytes(script, pc + 1)
  }

  /** Up to the fault, or the end, exactly the separator instructions go, and no data byte
      does. */
  lemma {:induction false} CodeBytesFilter(script: Bytes, pc: nat)
    requires pc <= |script|
    ensures AllWellFormed(WithoutCodeSeparators(Instrs(script, pc)))
    ensures CodeBytes(script, pc) == Unparse(WithoutCodeSeparators(Instrs(script, pc))) +
                                     if Parses(script, pc) then [] else CodeBytes(script, Fault(script, pc))
    decreases |script| - pc
  {
    hide DataSize, Header, HeaderSize, HeaderFits, Target;
    match ReadAt(script, pc)
    case None => assert [] + CodeBytes(script, pc) == CodeBytes(script, pc);
    case Some(t) =>
      CodeBytesFilter(script, t.next);
      EncodeRead(script, pc);
      var rest := WithoutCodeSeparators(Instrs(script, t.next));
      var tail := if Parses(script, pc) then [] else CodeBytes(script, Fault(script, pc));
      assert Instrs(script, pc)[1..] == Instrs(script, t.next);
      if script[pc] == OP_CODESEPARATOR {
        assert WithoutCodeSeparators(Instrs(script, pc)) == rest;
      } else {
        assert WithoutCodeSeparators(Instrs(script, pc)) == [t.instr] + rest;
        assert ([t.instr] + rest)[1..] == rest;
        assert Unparse([t.instr] + rest) == Encode(t.instr) + Unparse(rest);
        Assoc(Encode(t.instr), Unparse(rest), tail);
      }
  }

  lemma CodeStep(script: Bytes, pc: nat)
    requires pc < |script|
    ensures !HeaderFits(script, pc) ==> CodeBytes(script, pc) == [script[pc]] + CodeBytes(script, pc + 1)
    ensures HeaderFits(script, pc) && Target(script, pc) > |script| ==> CodeBytes(script, pc) == script[pc..]
    ensures HeaderFits(script, pc) && Target(script, pc) <= |script| ==>
              CodeBytes(script, pc) == (if script[pc] == OP_CODESEPARATOR then [] else script[pc..Target(script, pc)]) +
                                       CodeBytes(script, Target(script, pc))
  {
  }

  lemma CodeEnd(script: Bytes, pc: nat)
    requires pc >= |script|
    ensures CodeBytes(script, pc) == []
  {
  }

  method RemoveCodeSeparators(script: Bytes) returns (result: Bytes)
    ensures result == CodeBytes(script, 0)
  {
    hide CodeBytes;
    result := [];
    assert [] + CodeBytes(script, 0) == CodeBytes(script, 0);
    var pc := 0;
    while pc < |script|
      invariant CodeBytes(script, 0) == result + CodeBytes(script, pc)
      decreases |script| - pc
    {
      CodeStep(script, pc);
      assert [] + CodeBytes(script, pc + 1) == CodeBytes(script, pc + 1);
      var opcode := script[pc];
      if opcode == 0xab {
        pc := pc + 1;
        continue;
      }
      var start := pc;
      pc := pc + 1;
      if opcode <= 75 {
        pc := pc + opcode;
      } else if opcode == 0x4c && pc < |script| {
        pc := pc + 1 + script[pc];
      } else if opcode == 0x4d && pc + 1 < |script| {
        var n := Le16(script[pc], script[pc + 1]);
        pc := pc + 2 + n;
      } else if opcode == 0x4e && pc + 3 < |script| {
        var n := Le32(script[pc], script[pc + 1], script[pc + 2], script[pc + 3]);
        pc := pc + 4 + n;
      }
      var end := if pc < |script| then pc else |script|;
      CodeCopied(script, start, pc);
      Assoc(result, script[start..end], CodeBytes(script, pc));
      result := result + script[start..end];
    }
    CodeEnd(script, pc);
  }

  /** What one turn of the loop copies, and where it goes on. */
  lemma CodeCopied(script: Bytes, start: nat, pc: nat)
    requires start < |script| && script[start] != OP_CODESEPARATOR
    requires pc == if HeaderFits(script, start) then Target(script, start) else start + 1
    ensures var end := if pc < |script| then pc else |script|;
            CodeBytes(script, start) == script[start..end] + CodeBytes(script, pc)
  {
    CodeStep(script, start);
    if pc > |script| {
      CodeEnd(script, pc);
      assert script[start..|script|] + [] == script[start..];
    } else {
      assert script[start..start + 1] == [script[start]];
    }
  }
}
