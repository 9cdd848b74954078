/** Encoding rules for signatures, public keys and pushes, and FindAndDelete. */
module Encoding {
  import opened ScriptTypes
  import opened Grammar

  // ---- DER signatures (BIP 66) ---------------------------------------------------------

  predicate ValidSignatureEncoding(sig: Bytes) {
    && 9 <= |sig| <= 73
    && sig[0] == 0x30
    && sig[1] == |sig| - 3
    && var lenR := sig[3];
    && 5 + lenR < |sig|
    && var lenS := sig[5 + lenR];
    && lenR + lenS + 7 == |sig|
    && sig[2] == 0x02
    && lenR != 0
    && sig[4] < 0x80
    && !(lenR > 1 && sig[4] == 0x00 && sig[5] < 0x80)
    && sig[lenR + 4] == 0x02
    && lenS != 0
    && sig[lenR + 6] < 0x80
    && !(lenS > 1 && sig[lenR + 6] == 0x00 && sig[lenR + 7] < 0x80)
  }

  /** A big-endian DER integer: non-empty, not negative, no needless zero byte in front. */
  predicate DerInteger(v: Bytes) {
    v != [] && v[0] < 0x80 && (|v| > 1 && v[0] == 0 ==> v[1] >= 0x80)
  }

  function DerSignature(r: Bytes, s: Bytes, hashType: Byte): Bytes
    requires |r| + |s| <= 66
  {
    [0x30, |r| + |s| + 4, 0x02, |r|] + r + [0x02, |s|] + s + [hashType]
  }

  ghost predicate IsDerSignature(sig: Bytes) {
    exists r: Bytes, s: Bytes, h: Byte ::
      DerInteger(r) && DerInteger(s) && |r| + |s| <= 66 && sig == DerSignature(r, s, h)
  }

  /** The byte tests accept exactly the serializations of two DER integers and a hash type. */
  lemma DerReference(sig: Bytes)
    ensures ValidSignatureEncoding(sig) <==> IsDerSignature(sig)
  {
    hide ValidSignatureEncoding, DerInteger, DerSignature;
    if ValidSignatureEncoding(sig) { DerAccepted(sig); }
    if IsDerSignature(sig) {
      var r: Bytes, s: Bytes, h: Byte :|
        DerInteger(r) && DerInteger(s) && |r| + |s| <= 66 && sig == DerSignature(r, s, h);
      DerAccepts(r, s, h);
    }
  }

  lemma DerAccepted(sig: Bytes)
    requires ValidSignatureEncoding(sig)
    ensures IsDerSignature(sig)
  {
    hide DerSignature;
    var lenR: nat := sig[3];
    var lenS: nat := sig[5 + lenR];
    var r, s, h := sig[4..4 + lenR], sig[6 + lenR..6 + lenR + lenS], sig[|sig| - 1];
    DerParts(sig, lenR, lenS);
    assert DerInteger(r) && DerInteger(s) && |r| + |s| <= 66 && sig == DerSignature(r, s, h);
  }

  lemma DerAccepts(r: Bytes, s: Bytes, h: Byte)
    requires DerInteger(r) && DerInteger(s) && |r| + |s| <= 66
    ensures ValidSignatureEncoding(DerSignature(r, s, h))
  {
    hide DerSignature;
    DerFields(r, s, h);
  }

  lemma DerParts(sig: Bytes, lenR: nat, lenS: nat)
    requires |sig| == lenR + lenS + 7 <= 73
    requires sig[0] == 0x30 && sig[1] == |sig| - 3 && sig[2] == 0x02 && sig[3] == lenR
    requires sig[4 + lenR] == 0x02 && sig[5 + lenR] == lenS
    ensures sig == DerSignature(sig[4..4 + lenR], sig[6 + lenR..6 + lenR + lenS], sig[|sig| - 1])
  {
    assert sig[..4] == [0x30, lenR + lenS + 4, 0x02, lenR];
    assert sig[4 + lenR..6 + lenR] == [0x02, lenS];
    assert sig == sig[..4] + sig[4..4 + lenR] + sig[4 + lenR..6 + lenR]
                  + sig[6 + lenR..6 + lenR + lenS] + [sig[|sig| - 1]];
  }

  lemma DerFields(r: Bytes, s: Bytes, h: Byte)
    requires DerInteger(r) && DerInteger(s) && |r| + |s| <= 66
    ensures var sig := DerSignature(r, s, h);
            && |sig| == |r| + |s| + 7 && sig[0] == 0x30 && sig[1] == |sig| - 3 && sig[2] == 0x02
            && sig[3] == |r| && sig[4..4 + |r|] == r && sig[4 + |r|] == 0x02 && sig[5 + |r|] == |s|
            && sig[6 + |r|..6 + |r| + |s|] == s && sig[|sig| - 1] == h
            && sig[4] == r[0] && (|r| > 1 ==> sig[5] == r[1])
            && sig[6 + |r|] == s[0] && (|s| > 1 ==> sig[7 + |r|] == s[1])
  {
    var sig := DerSignature(r, s, h);
    var a: Bytes, b: Bytes := [0x30, |r| + |s| + 4, 0x02, |r|], [0x02, |s|];
    assert sig == a + r + b + s + [h];
    assert sig[..4] == a;
    assert sig[4..4 + |r|] == r;
    assert sig[4 + |r|..6 + |r|] == b;
    assert sig[6 + |r|..6 + |r| + |s|] == s;
    assert sig[0] == a[0] && sig[1] == a[1] && sig[2] == a[2] && sig[3] == a[3];
    assert sig[4 + |r|] == b[0] && sig[5 + |r|] == b[1];
  }

  /** Two signatures in this form are equal only when both integers and the type are. */
  lemma DerUnique(r: Bytes, s: Bytes, h: Byte, r': Bytes, s': Bytes, h': Byte)
    requires DerInteger(r) && DerInteger(s) && |r| + |s| <= 66
    requires DerInteger(r') && DerInteger(s') && |r'| + |s'| <= 66
    requires DerSignature(r, s, h) == DerSignature(r', s', h')
    ensures r == r' && s == s' && h == h'
  {
    DerFields(r, s, h);
    DerFields(r', s', h');
  }

  predicate DefinedHashType(sig: Bytes) {
    sig != [] && var t := if Last(sig) >= 0x80 then Last(sig) - 0x80 else Last(sig); 1 <= t <= 3
  }

  function LowDerSignature(crypto: Crypto, sig: Bytes): Result<Unit> {
    if !ValidSignatureEncoding(sig) then Err(SigDer) else crypto.lowS(sig)
  }

  function SignatureEncoding(flags: Flags, crypto: Crypto, sig: Bytes): Result<Unit> {
    if sig == [] then Ok(Unit)
    else if (VerifyDerSig in flags || VerifyLowS in flags || VerifyStrictEnc in flags)
            && !ValidSignatureEncoding(sig) then Err(SigDer)
    else
      var _ :- if VerifyLowS in flags then LowDerSignature(crypto, sig) else Ok(Unit);
      Check(!(VerifyStrictEnc in flags && !DefinedHashType(sig)), SigHashtype)
  }

  predicate CompressedOrUncompressed(pubkey: Bytes) {
    |pubkey| >= 33 &&
    if pubkey[0] == 0x04 then |pubkey| == 65
    else if pubkey[0] == 0x02 || pubkey[0] == 0x03 then |pubkey| == 33
    else false
  }

  predicate Compressed(pubkey: Bytes) {
    |pubkey| == 33 && (pubkey[0] == 0x02 || pubkey[0] == 0x03)
  }

  function PubkeyEncoding(flags: Flags, sv: SigVersion, pubkey: Bytes): Result<Unit> {
    if VerifyStrictEnc in flags && !CompressedOrUncompressed(pubkey) then Err(PubkeyType)
    else if VerifyWitnessPubkeyType in flags && sv == WitnessV0 && !Compressed(pubkey) then Err(WitnessPubkeyType)
    else Ok(Unit)
  }

  /** What a signature must look like under these flags. */
  lemma SignatureRules(flags: Flags, crypto: Crypto, sig: Bytes)
    ensures SignatureEncoding(flags, crypto, sig).Ok? <==>
            || sig == []
            || (&& (VerifyDerSig in flags || VerifyLowS in flags || VerifyStrictEnc in flags ==> IsDerSignature(sig))
                && (VerifyLowS in flags ==> crypto.lowS(sig).Ok?)
                && (VerifyStrictEnc in flags ==> sig[|sig| - 1] in {0x01, 0x02, 0x03, 0x81, 0x82, 0x83}))
  {
    hide ValidSignatureEncoding, IsDerSignature;
    DerReference(sig);
  }

  lemma PubkeyRules(flags: Flags, sv: SigVersion, key: Bytes)
    ensures PubkeyEncoding(flags, sv, key).Ok? <==>
            var short := |key| == 33 && key[0] in {0x02, 0x03};
            && (VerifyStrictEnc in flags ==> short || (|key| == 65 && key[0] == 0x04))
            && (VerifyWitnessPubkeyType in flags && sv == WitnessV0 ==> short)
  {
  }

  // ---- Pushes --------------------------------------------------------------------------

  predicate MinimalPush(data: Bytes, opcode: Byte) {
    if data == [] then opcode == 0x00
    else if |data| == 1 && 1 <= data[0] <= 16 then false
    else if |data| == 1 && data[0] == 0x81 then false
    else if |data| <= 75 then opcode == |data|
    else if |data| <= 255 then opcode == 0x4c
    else if |data| <= 65535 then opcode == 0x4d
    else true
  }

  /** The shortest push of a string by length alone. */
  function DirectPush(data: Bytes): (i: Instr)
    requires |data| < 0x1_0000_0000
    ensures WellFormed(i)
  {
    Instr(if |data| <= 75 then |data| else if |data| <= 255 then OP_PUSHDATA1
          else if |data| <= 65535 then OP_PUSHDATA2 else OP_PUSHDATA4, data)
  }

  /** The pattern CHECKSIG deletes: a signature with its push header. Above 65535 bytes the
      code writes no header. */
  function PushPattern(sig: Bytes): (r: Bytes)
    ensures |sig| <= 65535 ==> r == Encode(DirectPush(sig))
    ensures r != []
  {
    if |sig| <= 75 then [|sig|] + sig
    else if |sig| <= 255 then [0x4c, |sig|] + sig
    else if |sig| <= 65535 then [0x4d, |sig| % 0x100, |sig| / 0x100] + sig
    else sig
  }

  method BuildSinglePush(data: Bytes) returns (result: Bytes)
    requires |data| < 0x1_0000_0000
    ensures result == Encode(DirectPush(data))
  {
    result := [];
    var len := |data|;
    if len <= 75 {
      result := result + [len];
    } else if len <= 255 {
      result := result + [0x4c];
      result := result + [len];
    } else if len <= 65535 {
      result := result + [0x4d];
      result := result + [len % 0x100];
      result := result + [len / 0x100];
    } else {
      result := result + [0x4e];
      result := result + [len % 0x100];
      result := result + [len / 0x100 % 0x100];
      result := result + [len / 0x100 / 0x100 % 0x100];
      result := result + [len / 0x100 / 0x100 / 0x100];
    }
    result := result + data;
  }

  // ---- FindAndDelete -------------------------------------------------------------------

  predicate MatchAt(script: Bytes, pattern: Bytes, pc: nat) {
    pc + |pattern| <= |script| && script[pc..pc + |pattern|] == pattern
  }

  /** The next boundary; an instruction cut short reaches to the end. */
  function NextBoundary(script: Bytes, pc: nat): (n: nat)
    requires pc < |script|
    ensures pc < n <= |script|
  {
    match ReadAt(script, pc) case Some(t) => t.next case None => |script|
  }

  /** What is left of the script from a boundary on, and how often the pattern was there. */
  function Deleted(script: Bytes, pattern: Bytes, pc: nat): Bytes
    requires pattern != []
    decreases |script| - pc
  {
    if MatchAt(script, pattern, pc) then Deleted(script, pattern, pc + |pattern|)
    else if pc >= |script| then []
    else script[pc..NextBoundary(script, pc)] + Deleted(script, pattern, NextBoundary(script, pc))
  }

  function Matches(script: Bytes, pattern: Bytes, pc: nat): nat
    requires pattern != []
    decreases |script| - pc
  {
    if MatchAt(script, pattern, pc) then 1 + Matches(script, pattern, pc + |pattern|)
    else if pc >= |script| then 0
    else Matches(script, pattern, NextBoundary(script, pc))
  }

  lemma {:induction false} NothingDeleted(script: Bytes, pattern: Bytes, pc: nat)
    requires pattern != [] && pc <= |script| && Matches(script, pattern, pc) == 0
    ensures Deleted(script, pattern, pc) == script[pc..]
    decreases |script| - pc
  {
    if pc < |script| {
      var n := NextBoundary(script, pc);
      NothingDeleted(script, pattern, n);
      assert script[pc..] == script[pc..n] + script[n..];
    }
  }

  lemma MulSucc(m: nat, n: nat)
    ensures (1 + m) * n == n + m * n
  {
  }

  /** Conservation of bytes, on every script and pattern. */
  lemma {:induction false} DeletedSize(script: Bytes, pattern: Bytes, pc: nat)
    requires pattern != [] && pc <= |script|
    ensures |Deleted(script, pattern, pc)| + Matches(script, pattern, pc) * |pattern| == |script| - pc
    decreases |script| - pc
  {
    hide NextBoundary;
    if MatchAt(script, pattern, pc) {
      DeletedSize(script, pattern, pc + |pattern|);
      MulSucc(Matches(script, pattern, pc + |pattern|), |pattern|);
    } else if pc < |script| {
      DeletedSize(script, pattern, NextBoundary(script, pc));
    }
  }

  method FindAndDelete(script: Bytes, pattern: Bytes) returns (r: Bytes, count: nat)
    ensures pattern == [] ==> r == script && count == 0
    ensures pattern != [] ==> r == Deleted(script, pattern, 0) && count == Matches(script, pattern, 0)
  {
    if pattern == [] { return script, 0; }
    if |script| < |pattern| {
      TooShort(script, pattern, 0);
      return script, 0;
    }
    var result: Bytes := [];
    count := 0;
    var pc: nat := 0;
    var pc2: nat := 0;
    while true
      invariant pc2 <= pc <= |script|
      invariant result + script[pc2..pc] + Deleted(script, pattern, pc) == Deleted(script, pattern, 0)
      invariant count + Matches(script, pattern, pc) == Matches(script, pattern, 0)
      decreases |script| - pc, if pc2 < pc then 1 else 0
    {
      result := result + script[pc2..pc];
      pc, count := SkipMatches(script, pattern, pc, count);
      pc2 := pc;
      if pc >= |script| { break; }
      pc := Advance(script, pc);
    }
    if count > 0 {
      result := result + script[pc2..];
      return result, count;
    }
    NothingDeleted(script, pattern, 0);
    return script, 0;
  }

  lemma {:induction false} TooShort(script: Bytes, pattern: Bytes, pc: nat)
    requires pattern != [] && |script| < |pattern| && pc <= |script|
    ensures Matches(script, pattern, pc) == 0 && Deleted(script, pattern, pc) == script[pc..]
    decreases |script| - pc
  {
    if pc < |script| { TooShort(script, pattern, NextBoundary(script, pc)); }
    NothingDeleted(script, pattern, pc);
  }

  /** The inner loop: consecutive matches at a boundary are skipped and counted. */
  method SkipMatches(script: Bytes, pattern: Bytes, start: nat, counted: nat) returns (pc: nat, count: nat)
    requires pattern != [] && start <= |script|
    ensures start <= pc <= |script| && !MatchAt(script, pattern, pc)
    ensures Deleted(script, pattern, pc) == Deleted(script, pattern, start)
    ensures count + Matches(script, pattern, pc) == counted + Matches(script, pattern, start)
  {
    pc, count := start, counted;
    while pc + |pattern| <= |script| && script[pc..pc + |pattern|] == pattern
      invariant start <= pc <= |script|
      invariant Deleted(script, pattern, pc) == Deleted(script, pattern, start)
      invariant count + Matches(script, pattern, pc) == counted + Matches(script, pattern, start)
    {
      pc := pc + |pattern|;
      count := count + 1;
    }
  }

  /** Walker 5: one step over an instruction, stopping at the end when it is cut short. */
  method Advance(script: Bytes, start: nat) returns (pc: nat)
    requires start < |script|
    ensures pc == NextBoundary(script, start)
  {
    var opcode := script[start];
    pc := start + 1;
    if opcode <= 75 {
      pc := if pc + opcode < |script| then pc + opcode else |script|;
    } else if opcode == 0x4c {
      if pc < |script| {
        var n := script[pc];
        pc := if pc + 1 + n < |script| then pc + 1 + n else |script|;
      }
    } else if opcode == 0x4d {
      if pc + 1 < |script| {
        var n := Le16(script[pc], script[pc + 1]);
        pc := if pc + 2 + n < |script| then pc + 2 + n else |script|;
      } else {
        pc := |script|;
      }
    } else if opcode == 0x4e {
      if pc + 3 < |script| {
        var n := Le32(script[pc], script[pc + 1], script[pc + 2], script[pc + 3]);
        pc := if pc + 4 + n < |script| then pc + 4 + n else |script|;
      } else {
        pc := |script|;
      }
    }
  }

  // ---- FindAndDelete of one instruction is a filter on the instruction list ------------

  function Without(instrs: seq<Instr>, i: Instr): seq<Instr> {
    if instrs == [] then [] else (if instrs[0] == i then [] else [instrs[0]]) + Without(instrs[1..], i)
  }

  function Occurrences(instrs: seq<Instr>, i: Instr): nat {
    if instrs == [] then 0 else (if instrs[0] == i then 1 else 0) + Occurrences(instrs[1..], i)
  }

  /** At a boundary the bytes of an instruction are there exactly when the instruction is. */
  lemma MatchIsInstr(script: Bytes, i: Instr, pc: nat)
    requires WellFormed(i) && pc <= |script|
    ensures MatchAt(script, Encode(i), pc) <==> ReadAt(script, pc) == Some(Token(i, pc + |Encode(i)|))
  {
    if MatchAt(script, Encode(i), pc) {
      var e := pc + |Encode(i)|;
      ReadEncode(script[..pc], i, script[e..]);
      assert script == script[..pc] + Encode(i) + script[e..];
    }
    if ReadAt(script, pc) == Some(Token(i, pc + |Encode(i)|)) {
      EncodeRead(script, pc);
    }
  }

  /** One step of the deletion at a boundary, in terms of the instruction that is there. */
  lemma DeleteStep(script: Bytes, i: Instr, pc: nat)
    requires WellFormed(i) && pc < |script| && ReadAt(script, pc).Some?
    ensures var t := ReadAt(script, pc).value;
            && WellFormed(t.instr)
            && Deleted(script, Encode(i), pc) ==
               (if t.instr == i then [] else Encode(t.instr)) + Deleted(script, Encode(i), t.next)
            && Matches(script, Encode(i), pc) ==
               (if t.instr == i then 1 else 0) + Matches(script, Encode(i), t.next)
  {
    hide DataSize, HeaderSize, HeaderFits, Target, Header, MatchAt;
    MatchIsInstr(script, i, pc);
    EncodeRead(script, pc);
    var t := ReadAt(script, pc).value;
    if t.instr == i {
      assert t.next - pc == |Encode(i)|;
      assert [] + Deleted(script, Encode(i), t.next) == Deleted(script, Encode(i), t.next);
    }
  }

  /** What stands after the instructions: nothing, or all bytes from the fault on. */
  function FromFault(script: Bytes, pc: nat): Bytes
    requires pc <= |script|
  {
    if Parses(script, pc) then [] else script[Fault(script, pc)..]
  }

  lemma FromFaultNext(script: Bytes, pc: nat)
    requires pc <= |script|
    ensures match ReadAt(script, pc)
            case Some(t) => FromFault(script, pc) == FromFault(script, t.next) && Instrs(script, pc) != []
            case None => FromFault(script, pc) == script[pc..] && Instrs(script, pc) == []
  {
    hide ReadAt;
    if pc == |script| { assert ReadAt(script, pc).None? && script[pc..] == [] by { AtEnd(script); } }
  }

  lemma AtEnd(script: Bytes)
    ensures ReadAt(script, |script|).None? && script[|script|..] == []
  {
  }

  /** On every script: the matching instructions go, the others stay, and from the first
      fault on nothing is touched. */
  lemma {:induction false} DeleteIsFilter(script: Bytes, i: Instr, pc: nat)
    requires WellFormed(i) && pc <= |script|
    ensures AllWellFormed(Without(Instrs(script, pc), i))
    ensures Deleted(script, Encode(i), pc) == Unparse(Without(Instrs(script, pc), i)) + FromFault(script, pc)
    ensures Matches(script, Encode(i), pc) == Occurrences(Instrs(script, pc), i)
    decreases |script| - pc
  {
    hide HeaderFits, Target, Encode, Deleted, Matches, ReadAt, FromFault, WellFormed;
    FromFaultNext(script, pc);
    if pc == |script| {
      DeletedAtEnd(script, Encode(i));
    } else if ReadAt(script, pc).None? {
      DeletedAtFault(script, i, pc);
    } else {
      var t := ReadAt(script, pc).value;
      DeleteStep(script, i, pc);
      DeleteIsFilter(script, i, t.next);
      var rest, tail := Without(Instrs(script, t.next), i), FromFault(script, t.next);
      assert Instrs(script, pc)[1..] == Instrs(script, t.next);
      if t.instr == i {
        assert Without(Instrs(script, pc), i) == rest;
      } else {
        assert Without(Instrs(script, pc), i) == [t.instr] + rest;
        UnparseCons(t.instr, rest);
        Assoc(Encode(t.instr), Unparse(rest), tail);
      }
    }
  }

  lemma DeletedAtFault(script: Bytes, i: Instr, pc: nat)
    requires WellFormed(i) && pc < |script| && ReadAt(script, pc).None?
    ensures Deleted(script, Encode(i), pc) == script[pc..] && Matches(script, Encode(i), pc) == 0
  {
    hide ReadAt, Encode;
    MatchIsInstr(script, i, pc);
    DeletedAtEnd(script, Encode(i));
    assert script[pc..|script|] + [] == script[pc..];
  }

  lemma DeletedAtEnd(script: Bytes, pattern: Bytes)
    requires pattern != []
    ensures Deleted(script, pattern, |script|) == [] && Matches(script, pattern, |script|) == 0
  {
  }

  /** Deleting a signature's push from code that parses removes exactly the instructions
      that push it that way; what is left parses to the others, in order. */
  lemma DeletePush(code: Bytes, sig: Bytes)
    requires Parses(code, 0) && |sig| <= 65535
    ensures var r := Deleted(code, PushPattern(sig), 0);
            && Parses(r, 0) && Instrs(r, 0) == Without(Instrs(code, 0), DirectPush(sig))
            && Matches(code, PushPattern(sig), 0) == Occurrences(Instrs(code, 0), DirectPush(sig))
            && |r| + Matches(code, PushPattern(sig), 0) * |PushPattern(sig)| == |code|
  {
    var i := DirectPush(sig);
    DeleteIsFilter(code, i, 0);
    DeletedSize(code, PushPattern(sig), 0);
    var kept := Unparse(Without(Instrs(code, 0), i));
    InstrsUnparse([], Without(Instrs(code, 0), i));
    assert [] + kept == kept && kept + [] == kept;
  }
}
