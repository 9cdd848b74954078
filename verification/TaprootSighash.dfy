/** The BIP 341 signature message and the per-transaction cache it is built from. */
module TaprootSighash {
  import opened ScriptTypes
  import opened ScriptNum
  import opened Wire

  datatype TxIn = TxIn(prev: OutPoint, sequence: U32)
  type Script = s: Bytes | |s| < 0x1_0000_0000_0000_0000
  datatype TxOut = TxOut(value: U64, script: Script)
  datatype Tx = Tx(version: U32, lockTime: U32, inputs: seq<TxIn>, outputs: seq<TxOut>)

  function EncodeOutPoint(o: OutPoint): (r: Bytes)
    ensures |r| == 36
  {
    o.txid + Le(o.vout, 4)
  }

  function EncodeTxOut(o: TxOut): Bytes {
    Le(o.value, 8) + (CompactSize(|o.script|) + o.script)
  }

  // ---- What a signature commits to -----------------------------------------------------

  datatype InputHashes = InputHashes(prevouts: Hash32, amounts: Hash32, scripts: Hash32, sequences: Hash32)
  datatype Spent = ByIndex(index: U32) | ByInput(prev: OutPoint, out: TxOut, sequence: U32)
  datatype Leaf = Leaf(hash: Hash32, codeSeparator: U32)

  datatype Committed = Committed(
    hashType: Byte, version: U32, lockTime: U32,
    inputs: Option<InputHashes>, outputs: Option<Hash32>,
    spent: Spent, annex: Option<Hash32>, single: Option<Hash32>, leaf: Option<Leaf>)

  predicate DefinedType(t: Byte) { t <= 0x03 || 0x81 <= t <= 0x83 }
  predicate AnyoneCanPay(t: Byte) { t >= 0x80 }

  function OutputType(t: Byte): Byte
    requires DefinedType(t)
  {
    if t == 0 then 1 else if t >= 0x80 then t - 0x80 else t
  }

  /** Which parts are there follows from the hash type. */
  predicate WellShaped(c: Committed) {
    && DefinedType(c.hashType)
    && (c.inputs.Some? <==> !AnyoneCanPay(c.hashType))
    && (c.outputs.Some? <==> OutputType(c.hashType) == 1)
    && (c.spent.ByInput? <==> AnyoneCanPay(c.hashType))
    && (c.single.Some? <==> OutputType(c.hashType) == 3)
  }

  function SpendType(c: Committed): Byte {
    (if c.leaf.Some? then 2 else 0) + (if c.annex.Some? then 1 else 0)
  }

  function Optional(h: Option<Hash32>): Bytes {
    match h case None => [] case Some(v) => v
  }

  function EncodeInputs(h: Option<InputHashes>): Bytes {
    match h
    case None => []
    case Some(v) => v.prevouts + (v.amounts + (v.scripts + v.sequences))
  }

  function EncodeSpent(s: Spent): Bytes {
    match s
    case ByIndex(i) => Le(i, 4)
    case ByInput(prev, out, sequence) => EncodeOutPoint(prev) + (EncodeTxOut(out) + Le(sequence, 4))
  }

  function EncodeLeaf(l: Option<Leaf>): Bytes {
    match l case None => [] case Some(v) => v.hash + ([0x00] + Le(v.codeSeparator, 4))
  }

  /** The message, as section "Common signature message" of BIP 341 lays it out, with the
      leading epoch byte. */
  function Message(c: Committed): Bytes {
    [0x00, c.hashType] + (Le(c.version, 4) + (Le(c.lockTime, 4) + (EncodeInputs(c.inputs) +
      (Optional(c.outputs) + ([SpendType(c)] + (EncodeSpent(c.spent) + (Optional(c.annex) +
        (Optional(c.single) + EncodeLeaf(c.leaf)))))))))
  }

  // ---- The message determines what it commits to ---------------------------------------

  lemma U32Bound(n: U32)
    ensures n < Pow256(4)
  {
    Pow256Values();
  }

  lemma TakeU32(a: U32, b: U32, x: Bytes, y: Bytes)
    requires Le(a, 4) + x == Le(b, 4) + y
    ensures a == b && x == y
  {
    FixedPrefix(Le(a, 4), Le(b, 4), x, y);
    U32Bound(a);
    U32Bound(b);
    LeInjective(a, b, 4);
  }

  lemma TakeTxOut(a: TxOut, b: TxOut, x: Bytes, y: Bytes)
    requires EncodeTxOut(a) + x == EncodeTxOut(b) + y
    ensures a == b && x == y
  {
    hide Le, CompactSize;
    Regroup(a, x);
    Regroup(b, y);
    FixedPrefix(Le(a.value, 8), Le(b.value, 8),
      CompactSize(|a.script|) + (a.script + x), CompactSize(|b.script|) + (b.script + y));
    assert a.value == b.value by {
      Pow256Values();
      LeInjective(a.value, b.value, 8);
    }
    CompactPrefix(|a.script|, |b.script|, a.script + x, b.script + y);
    FixedPrefix(a.script, b.script, x, y);
  }

  lemma Regroup(o: TxOut, x: Bytes)
    ensures EncodeTxOut(o) + x == Le(o.value, 8) + (CompactSize(|o.script|) + (o.script + x))
  {
    hide Le, CompactSize;
    Assoc(Le(o.value, 8), CompactSize(|o.script|) + o.script, x);
    Assoc(CompactSize(|o.script|), o.script, x);
  }

  lemma TakeHash(a: Option<Hash32>, b: Option<Hash32>, x: Bytes, y: Bytes)
    requires a.Some? == b.Some? && Optional(a) + x == Optional(b) + y
    ensures a == b && x == y
  {
    FixedPrefix(Optional(a), Optional(b), x, y);
  }

  lemma TakeInputs(a: Option<InputHashes>, b: Option<InputHashes>, x: Bytes, y: Bytes)
    requires a.Some? == b.Some? && EncodeInputs(a) + x == EncodeInputs(b) + y
    ensures a == b && x == y
  {
    FixedPrefix(EncodeInputs(a), EncodeInputs(b), x, y);
    if a.Some? {
      var u, v := a.value, b.value;
      FixedPrefix(u.prevouts, v.prevouts, u.amounts + (u.scripts + u.sequences), v.amounts + (v.scripts + v.sequences));
      FixedPrefix(u.amounts, v.amounts, u.scripts + u.sequences, v.scripts + v.sequences);
      FixedPrefix(u.scripts, v.scripts, u.sequences, v.sequences);
    }
  }

  lemma TakeOutPoint(a: OutPoint, b: OutPoint, x: Bytes, y: Bytes)
    requires EncodeOutPoint(a) + x == EncodeOutPoint(b) + y
    ensures a == b && x == y
  {
    FixedPrefix(EncodeOutPoint(a), EncodeOutPoint(b), x, y);
    FixedPrefix(a.txid, b.txid, Le(a.vout, 4), Le(b.vout, 4));
    TakeU32(a.vout, b.vout, [], []);
  }

  lemma TakeSpent(a: Spent, b: Spent, x: Bytes, y: Bytes)
    requires a.ByInput? == b.ByInput? && EncodeSpent(a) + x == EncodeSpent(b) + y
    ensures a == b && x == y
  {
    hide EncodeOutPoint, EncodeTxOut, Le;
    if a.ByInput? {
      RegroupInput(a.prev, a.out, a.sequence, x);
      RegroupInput(b.prev, b.out, b.sequence, y);
      TakeOutPoint(a.prev, b.prev,
        EncodeTxOut(a.out) + (Le(a.sequence, 4) + x), EncodeTxOut(b.out) + (Le(b.sequence, 4) + y));
      TakeTxOut(a.out, b.out, Le(a.sequence, 4) + x, Le(b.sequence, 4) + y);
      TakeU32(a.sequence, b.sequence, x, y);
    } else {
      TakeU32(a.index, b.index, x, y);
    }
  }

  lemma RegroupInput(p: OutPoint, o: TxOut, s: U32, x: Bytes)
    ensures EncodeSpent(ByInput(p, o, s)) + x == EncodeOutPoint(p) + (EncodeTxOut(o) + (Le(s, 4) + x))
  {
    hide EncodeOutPoint, EncodeTxOut, Le;
    Assoc(EncodeOutPoint(p), EncodeTxOut(o) + Le(s, 4), x);
    Assoc(EncodeTxOut(o), Le(s, 4), x);
  }

  lemma TakeLeaf(a: Option<Leaf>, b: Option<Leaf>)
    requires a.Some? == b.Some? && EncodeLeaf(a) == EncodeLeaf(b)
    ensures a == b
  {
    if a.Some? {
      FixedPrefix(a.value.hash, b.value.hash,
        [0x00] + Le(a.value.codeSeparator, 4), [0x00] + Le(b.value.codeSeparator, 4));
      FixedPrefix([0x00], [0x00], Le(a.value.codeSeparator, 4), Le(b.value.codeSeparator, 4));
      TakeU32(a.value.codeSeparator, b.value.codeSeparator, [], []);
    }
  }

  /** From the spend type byte on. */
  function Tail(c: Committed): Bytes {
    [SpendType(c)] + (EncodeSpent(c.spent) + (Optional(c.annex) + (Optional(c.single) + EncodeLeaf(c.leaf))))
  }

  lemma TailUnique(c: Committed, d: Committed)
    requires WellShaped(c) && WellShaped(d) && c.hashType == d.hashType && Tail(c) == Tail(d)
    ensures c.spent == d.spent && c.annex == d.annex && c.single == d.single && c.leaf == d.leaf
  {
    hide EncodeSpent, Optional, EncodeLeaf;
    var sc := Optional(c.single) + EncodeLeaf(c.leaf);
    var sd := Optional(d.single) + EncodeLeaf(d.leaf);
    FixedPrefix([SpendType(c)], [SpendType(d)], EncodeSpent(c.spent) + (Optional(c.annex) + sc),
      EncodeSpent(d.spent) + (Optional(d.annex) + sd));
    assert SpendType(c) == SpendType(d);
    TakeSpent(c.spent, d.spent, Optional(c.annex) + sc, Optional(d.annex) + sd);
    TakeHash(c.annex, d.annex, sc, sd);
    TakeHash(c.single, d.single, EncodeLeaf(c.leaf), EncodeLeaf(d.leaf));
    TakeLeaf(c.leaf, d.leaf);
  }

  /** Equal messages commit to the same hash type, spend type and fields. */
  lemma MessageUnique(c: Committed, d: Committed)
    requires WellShaped(c) && WellShaped(d) && Message(c) == Message(d)
    ensures c == d
  {
    hide EncodeInputs, Optional, Le, EncodeSpent, EncodeLeaf;
    var tc, td := Optional(c.outputs) + Tail(c), Optional(d.outputs) + Tail(d);
    var ic, id := EncodeInputs(c.inputs) + tc, EncodeInputs(d.inputs) + td;
    FixedPrefix([0x00, c.hashType], [0x00, d.hashType], Le(c.version, 4) + (Le(c.lockTime, 4) + ic),
      Le(d.version, 4) + (Le(d.lockTime, 4) + id));
    assert [0x00, c.hashType][1] == [0x00, d.hashType][1];
    TakeU32(c.version, d.version, Le(c.lockTime, 4) + ic, Le(d.lockTime, 4) + id);
    TakeU32(c.lockTime, d.lockTime, ic, id);
    TakeInputs(c.inputs, d.inputs, tc, td);
    TakeHash(c.outputs, d.outputs, Tail(c), Tail(d));
    TailUnique(c, d);
  }

  // ---- From a transaction to what is committed -----------------------------------------

  type Sha = Bytes -> Hash32

  /** The encodings of a list, one after the other. */
  function Concat<T>(enc: T -> Bytes, xs: seq<T>): Bytes {
    if xs == [] then [] else Concat(enc, Pop(xs)) + enc(Last(xs))
  }

  function EncodeU32(n: U32): Bytes { Le(n, 4) }
  function EncodeU64(n: U64): Bytes { Le(n, 8) }
  function EncodeScript(s: Script): Bytes { CompactSize(|s|) + s }

  function PrevOf(ins: seq<TxIn>): seq<OutPoint> { seq(|ins|, i requires 0 <= i < |ins| => ins[i].prev) }
  function SequenceOf(ins: seq<TxIn>): seq<U32> { seq(|ins|, i requires 0 <= i < |ins| => ins[i].sequence) }
  function ValueOf(outs: seq<TxOut>): seq<U64> { seq(|outs|, i requires 0 <= i < |outs| => outs[i].value) }
  function ScriptOf(outs: seq<TxOut>): seq<Script> { seq(|outs|, i requires 0 <= i < |outs| => outs[i].script) }

  function Prevouts(ins: seq<TxIn>): Bytes { Concat(EncodeOutPoint, PrevOf(ins)) }
  function Sequences(ins: seq<TxIn>): Bytes { Concat(EncodeU32, SequenceOf(ins)) }
  function Amounts(outs: seq<TxOut>): Bytes { Concat(EncodeU64, ValueOf(outs)) }
  function Scripts(outs: seq<TxOut>): Bytes { Concat(EncodeScript, ScriptOf(outs)) }
  function Outputs(outs: seq<TxOut>): Bytes { Concat(EncodeTxOut, outs) }

  datatype TxHashes = TxHashes(inputs: InputHashes, outputs: Hash32)

  /** The hashes that are the same for every input of a transaction. */
  function ComputeHashes(sha: Sha, tx: Tx, spent: seq<TxOut>): TxHashes {
    TxHashes(InputHashes(sha(Prevouts(tx.inputs)), sha(Amounts(spent)), sha(Scripts(spent)), sha(Sequences(tx.inputs))),
             sha(Outputs(tx.outputs)))
  }

  datatype Request = Request(hashType: Byte, tapscript: bool, exec: ExecData)

  predicate ValidRequest(q: Request) { q.exec.codeSeparatorPos < 0x1_0000_0000 }

  /** The SIGHASH_SINGLE output, if the transaction has one at this index. */
  function SingleHash(sha: Sha, tx: Tx, index: nat): Option<Hash32> {
    if index < |tx.outputs| then Some(sha(EncodeTxOut(tx.outputs[index]))) else None
  }

  /** What a check commits to, computed afresh; None where the code gives up. */
  function Commitment(sha: Sha, tx: Tx, spent: seq<TxOut>, index: U32, q: Request): (r: Option<Committed>)
    requires index < |tx.inputs| && ValidRequest(q)
    ensures r.Some? ==> WellShaped(r.value)
  {
    if !DefinedType(q.hashType) || |spent| != |tx.inputs| then None
    else
      var acp, out, h := AnyoneCanPay(q.hashType), OutputType(q.hashType), ComputeHashes(sha, tx, spent);
      if out == 3 && SingleHash(sha, tx, index) == None then None
      else
        Some(Committed(
          q.hashType, tx.version, tx.lockTime,
          if acp then None else Some(h.inputs),
          if out == 1 then Some(h.outputs) else None,
          if acp then ByInput(tx.inputs[index].prev, spent[index], tx.inputs[index].sequence) else ByIndex(index),
          if q.exec.annexPresent then Some(q.exec.annexHash) else None,
          if out == 3 then SingleHash(sha, tx, index) else None,
          if q.tapscript then Some(Leaf(q.exec.tapleafHash, q.exec.codeSeparatorPos)) else None))
  }

  function FreshMessage(sha: Sha, tx: Tx, spent: seq<TxOut>, index: U32, q: Request): Option<Bytes>
    requires index < |tx.inputs| && ValidRequest(q)
  {
    match Commitment(sha, tx, spent, index, q) case None => None case Some(c) => Some(Message(c))
  }

  // ---- Where each field is -------------------------------------------------------------

  lemma Slice(m: Bytes, pre: Bytes, x: Bytes, post: Bytes)
    requires m == pre + (x + post)
    ensures |pre| + |x| <= |m| && m[|pre|..|pre| + |x|] == x && m == (pre + x) + post
  {
  }

  /** A little-endian number of this width at this place. */
  predicate NumberAt(m: Bytes, at: nat, width: nat, n: nat) {
    at + width <= |m| && LeValue(m[at..at + width]) == n
  }

  predicate BytesAt(m: Bytes, at: nat, b: Bytes) { at + |b| <= |m| && m[at..at + |b|] == b }

  lemma NumberIs(m: Bytes, at: nat, width: nat, n: nat)
    requires BytesAt(m, at, Le(n, width)) && n < Pow256(width)
    ensures NumberAt(m, at, width, n)
  {
    LeRoundTrip(n, width);
  }

  predicate CommitsToOutputs(t: Byte) { t == 0x00 || t == 0x01 || t == 0x81 }
  predicate CommitsToOne(t: Byte) { t == 0x03 || t == 0x83 }

  function SpendTypeAt(t: Byte): nat { (if t >= 0x80 then 10 else 138) + if CommitsToOutputs(t) then 32 else 0 }

  /** Outpoint, amount, script with its length, sequence number; or the input's index. */
  function SpentSize(t: Byte, script: Script): nat {
    if t >= 0x80 then 36 + 8 + |CompactSize(|script|)| + |script| + 4 else 4
  }

  /** The parts that every message begins with. */
  predicate HeadLayout(m: Bytes, t: Byte, version: U32, lockTime: U32) {
    |m| > 10 && m[0] == 0 && m[1] == t && NumberAt(m, 2, 4, version) && NumberAt(m, 6, 4, lockTime)
  }

  lemma HeadIs(c: Committed)
    ensures HeadLayout(Message(c), c.hashType, c.version, c.lockTime)
    ensures Message(c) == HeadOf(c) + AfterHead(c) && |HeadOf(c)| == 10
  {
    hide Le, EncodeInputs, EncodeSpent, EncodeLeaf, Optional, NumberAt;
    var m, rest := Message(c), AfterHead(c);
    var v, l := Le(c.version, 4), Le(c.lockTime, 4);
    Slice(m, [0x00, c.hashType], v, l + rest);
    Slice(m, [0x00, c.hashType] + v, l, rest);
    assert m[..2] == [0x00, c.hashType] && m[0] == m[..2][0] && m[1] == m[..2][1];
    U32Bound(c.version);
    U32Bound(c.lockTime);
    NumberIs(m, 2, 4, c.version);
    NumberIs(m, 6, 4, c.lockTime);
  }

  function HeadOf(c: Committed): Bytes { [0x00, c.hashType] + Le(c.version, 4) + Le(c.lockTime, 4) }

  function AfterHead(c: Committed): Bytes { EncodeInputs(c.inputs) + (Optional(c.outputs) + Tail(c)) }

  /** Without ANYONECANPAY four hashes follow, and a fifth where all outputs are signed. */
  lemma HashesAre(c: Committed)
    requires WellShaped(c)
    ensures var m, t := Message(c), c.hashType;
            && (t < 0x80 ==>
                  && BytesAt(m, 10, c.inputs.value.prevouts) && BytesAt(m, 42, c.inputs.value.amounts)
                  && BytesAt(m, 74, c.inputs.value.scripts) && BytesAt(m, 106, c.inputs.value.sequences))
            && (CommitsToOutputs(t) ==> BytesAt(m, if t >= 0x80 then 10 else 138, c.outputs.value))
            && |m| >= SpendTypeAt(t) && m[SpendTypeAt(t)..] == Tail(c)
  {
    hide EncodeSpent, EncodeLeaf, Message, Le, HeadOf, Tail;
    HeadIs(c);
    var m, tail, h := Message(c), Tail(c), HeadOf(c);
    var outputs := Optional(c.outputs);
    var inputs := EncodeInputs(c.inputs);
    Slice(m, h, inputs, outputs + tail);
    Slice(m, h + inputs, outputs, tail);
    assert m == (h + inputs + outputs) + tail;
    assert |h + inputs + outputs| == SpendTypeAt(c.hashType);
    if c.inputs.Some? {
      var v := c.inputs.value;
      InputHashesAt(m, v);
    }
  }

  lemma InputHashesAt(m: Bytes, v: InputHashes)
    requires BytesAt(m, 10, v.prevouts + (v.amounts + (v.scripts + v.sequences)))
    ensures BytesAt(m, 10, v.prevouts) && BytesAt(m, 42, v.amounts)
    ensures BytesAt(m, 74, v.scripts) && BytesAt(m, 106, v.sequences)
  {
    var all := v.prevouts + (v.amounts + (v.scripts + v.sequences));
    assert all[..32] == v.prevouts && all[32..64] == v.amounts && all[64..96] == v.scripts && all[96..] == v.sequences;
    assert m[10..138] == all;
    assert m[10..42] == all[..32] && m[42..74] == all[32..64] && m[74..106] == all[64..96] && m[106..138] == all[96..];
  }

  /** What follows the spend type byte, each part right after the one before. */
  lemma TailIs(c: Committed)
    requires WellShaped(c)
    ensures var r, s := Tail(c), EncodeSpent(c.spent);
            var annexAt := 1 + |s|;
            var singleAt := annexAt + if c.annex.Some? then 32 else 0;
            var leafAt := singleAt + if c.single.Some? then 32 else 0;
            && |r| == leafAt + (if c.leaf.Some? then 37 else 0)
            && r[0] == SpendType(c) && BytesAt(r, 1, s)
            && (c.annex.Some? ==> BytesAt(r, annexAt, c.annex.value))
            && (c.single.Some? ==> BytesAt(r, singleAt, c.single.value))
            && (c.leaf.Some? ==>
                  && BytesAt(r, leafAt, c.leaf.value.hash) && r[leafAt + 32] == 0
                  && NumberAt(r, leafAt + 33, 4, c.leaf.value.codeSeparator))
  {
    hide EncodeSpent, Le, NumberAt;
    var r, t, s, a, b := Tail(c), [SpendType(c)], EncodeSpent(c.spent), Optional(c.annex), Optional(c.single);
    var leaf := EncodeLeaf(c.leaf);
    Slice(r, t, s, a + (b + leaf));
    Slice(r, t + s, a, b + leaf);
    Slice(r, t + s + a, b, leaf);
    assert r[0] == t[0];
    if c.leaf.Some? {
      var l := c.leaf.value;
      var pre, n := t + s + a + b, Le(l.codeSeparator, 4);
      Slice(r, pre, l.hash, [0x00] + n);
      Slice(r, pre + l.hash, [0x00], n);
      assert n + [] == n;
      Slice(r, pre + l.hash + [0x00], n, []);
      assert r[|pre| + 32] == r[|pre| + 32..|pre| + 33][0];
      U32Bound(l.codeSeparator);
      NumberIs(r, |pre| + 33, 4, l.codeSeparator);
    }
  }

  /** The spent input on its own: outpoint, amount, script, sequence number. */
  lemma SpentIs(p: OutPoint, o: TxOut, n: U32)
    ensures var e, k := EncodeSpent(ByInput(p, o, n)), |CompactSize(|o.script|)| + |o.script|;
            && |e| == 36 + 8 + k + 4
            && BytesAt(e, 0, p.txid) && NumberAt(e, 32, 4, p.vout) && NumberAt(e, 36, 8, o.value)
            && BytesAt(e, 44, CompactSize(|o.script|) + o.script) && NumberAt(e, 44 + k, 4, n)
  {
    hide Le, CompactSize, NumberAt;
    var e, v, a, s, q := EncodeSpent(ByInput(p, o, n)), Le(p.vout, 4), Le(o.value, 8),
      CompactSize(|o.script|) + o.script, Le(n, 4);
    assert e == p.txid + (v + (a + (s + q))) by { Regroup5(p.txid, v, a, s, q); }
    assert [] + e == e;
    Slice(e, [], p.txid, v + (a + (s + q)));
    Slice(e, [] + p.txid, v, a + (s + q));
    Slice(e, [] + p.txid + v, a, s + q);
    Slice(e, [] + p.txid + v + a, s, q);
    assert q + [] == q;
    Slice(e, [] + p.txid + v + a + s, q, []);
    U32Bound(p.vout);
    U32Bound(n);
    Pow256Values();
    NumberIs(e, 32, 4, p.vout);
    NumberIs(e, 36, 8, o.value);
    NumberIs(e, 44 + |s|, 4, n);
  }

  lemma Regroup5(t: Bytes, v: Bytes, a: Bytes, s: Bytes, q: Bytes)
    ensures (t + v) + ((a + s) + q) == t + (v + (a + (s + q)))
  {
    assert (a + s) + q == a + (s + q);
  }

  lemma Shifted(m: Bytes, at: nat, k: nat, b: Bytes)
    requires at <= |m| && BytesAt(m[at..], k, b)
    ensures BytesAt(m, at + k, b)
  {
    assert m[at..][k..k + |b|] == m[at + k..at + k + |b|];
  }

  lemma NumberShifted(m: Bytes, at: nat, k: nat, width: nat, n: nat)
    requires at <= |m| && NumberAt(m[at..], k, width, n)
    ensures NumberAt(m, at + k, width, n)
  {
    assert m[at..][k..k + width] == m[at + k..at + k + width];
  }

  /** The hashes over the whole transaction. */
  predicate HashesLayout(m: Bytes, t: Byte, sha: Sha, tx: Tx, spent: seq<TxOut>) {
    && (t < 0x80 ==>
          && BytesAt(m, 10, sha(Concat(EncodeOutPoint, PrevOf(tx.inputs))))
          && BytesAt(m, 42, sha(Concat(EncodeU64, ValueOf(spent))))
          && BytesAt(m, 74, sha(Concat(EncodeScript, ScriptOf(spent))))
          && BytesAt(m, 106, sha(Concat(EncodeU32, SequenceOf(tx.inputs)))))
    && (CommitsToOutputs(t) ==> BytesAt(m, if t >= 0x80 then 10 else 138, sha(Concat(EncodeTxOut, tx.outputs))))
  }

  /** The input that is signed. */
  predicate InputLayout(m: Bytes, at: nat, t: Byte, i: TxIn, o: TxOut, index: U32) {
    if t < 0x80 then NumberAt(m, at, 4, index)
    else
      var k := |CompactSize(|o.script|)| + |o.script|;
      && BytesAt(m, at, i.prev.txid) && NumberAt(m, at + 32, 4, i.prev.vout) && NumberAt(m, at + 36, 8, o.value)
      && BytesAt(m, at + 44, CompactSize(|o.script|) + o.script) && NumberAt(m, at + 44 + k, 4, i.sequence)
  }

  /** From the spend type byte on. */
  predicate TailLayout(m: Bytes, t: Byte, sha: Sha, tx: Tx, spent: seq<TxOut>, index: U32, q: Request)
    requires index < |tx.inputs| == |spent| && (CommitsToOne(t) ==> index < |tx.outputs|)
  {
    var at := SpendTypeAt(t);
    var annexAt := at + 1 + SpentSize(t, spent[index].script);
    var singleAt := annexAt + if q.exec.annexPresent then 32 else 0;
    var leafAt := singleAt + if CommitsToOne(t) then 32 else 0;
    && |m| == leafAt + (if q.tapscript then 37 else 0)
    && m[at] == (if q.tapscript then 2 else 0) + (if q.exec.annexPresent then 1 else 0)
    && InputLayout(m, at + 1, t, tx.inputs[index], spent[index], index)
    && (q.exec.annexPresent ==> BytesAt(m, annexAt, q.exec.annexHash))
    && (CommitsToOne(t) ==> BytesAt(m, singleAt, sha(EncodeTxOut(tx.outputs[index]))))
    && (q.tapscript ==>
          && BytesAt(m, leafAt, q.exec.tapleafHash) && m[leafAt + 32] == 0
          && NumberAt(m, leafAt + 33, 4, q.exec.codeSeparatorPos))
  }

  /** When there is a message. */
  predicate Signable(tx: Tx, spent: seq<TxOut>, index: U32, t: Byte) {
    && (t <= 0x03 || t == 0x81 || t == 0x82 || t == 0x83) && |spent| == |tx.inputs|
    && (CommitsToOne(t) ==> index < |tx.outputs|)
  }

  /** Where every field of the message is, for every hash type, key path or script path, with
      or without an annex. */
  lemma MessageLayout(sha: Sha, tx: Tx, spent: seq<TxOut>, index: U32, q: Request)
    requires index < |tx.inputs| && ValidRequest(q)
    ensures FreshMessage(sha, tx, spent, index, q).Some? <==> Signable(tx, spent, index, q.hashType)
    ensures FreshMessage(sha, tx, spent, index, q).Some? ==>
              var m := FreshMessage(sha, tx, spent, index, q).value;
              && HeadLayout(m, q.hashType, tx.version, tx.lockTime)
              && HashesLayout(m, q.hashType, sha, tx, spent)
              && TailLayout(m, q.hashType, sha, tx, spent, index, q)
  {
    hide Message, HeadLayout, TailLayout, EncodeOutPoint, EncodeU64, EncodeU32, EncodeScript, EncodeTxOut, Concat;
    if Signable(tx, spent, index, q.hashType) {
      var c := Commitment(sha, tx, spent, index, q).value;
      HeadIs(c);
      HashesAre(c);
      TailAt(sha, tx, spent, index, q);
    }
  }

  lemma TailAt(sha: Sha, tx: Tx, spent: seq<TxOut>, index: U32, q: Request)
    requires index < |tx.inputs| && ValidRequest(q) && Signable(tx, spent, index, q.hashType)
    ensures Commitment(sha, tx, spent, index, q).Some?
    ensures TailLayout(Message(Commitment(sha, tx, spent, index, q).value), q.hashType, sha, tx, spent, index, q)
  {
    hide Message, EncodeTxOut, NumberAt, BytesAt, CompactSize, Tail, InputLayout, ComputeHashes, EncodeSpent;
    var c := Commitment(sha, tx, spent, index, q).value;
    var m, r, at := Message(c), Tail(c), SpendTypeAt(q.hashType);
    HashesAre(c);
    TailIs(c);
    SpentAt(r, q.hashType, tx.inputs[index], spent[index], index);
    ByteShifted(m, at, 0);
    InputShifted(m, at, q.hashType, tx.inputs[index], spent[index], index);
    var annexAt := 1 + SpentSize(q.hashType, spent[index].script);
    var singleAt := annexAt + if q.exec.annexPresent then 32 else 0;
    var leafAt := singleAt + if CommitsToOne(q.hashType) then 32 else 0;
    if q.exec.annexPresent { Shifted(m, at, annexAt, q.exec.annexHash); }
    if CommitsToOne(q.hashType) { Shifted(m, at, singleAt, sha(EncodeTxOut(tx.outputs[index]))); }
    if q.tapscript {
      Shifted(m, at, leafAt, q.exec.tapleafHash);
      NumberShifted(m, at, leafAt + 33, 4, q.exec.codeSeparatorPos);
      ByteShifted(m, at, leafAt + 32);
    }
  }

  lemma ByteShifted(m: Bytes, at: nat, k: nat)
    requires at + k < |m|
    ensures m[at..][k] == m[at + k]
  {
  }

  function SpentBy(t: Byte, i: TxIn, o: TxOut, index: U32): Spent {
    if t >= 0x80 then ByInput(i.prev, o, i.sequence) else ByIndex(index)
  }

  lemma SpentAt(r: Bytes, t: Byte, i: TxIn, o: TxOut, index: U32)
    requires BytesAt(r, 1, EncodeSpent(SpentBy(t, i, o, index)))
    ensures InputLayout(r, 1, t, i, o, index) && |EncodeSpent(SpentBy(t, i, o, index))| == SpentSize(t, o.script)
  {
    hide Le, CompactSize, NumberAt, EncodeTxOut, EncodeOutPoint;
    var e := EncodeSpent(SpentBy(t, i, o, index));
    if t >= 0x80 {
      hide EncodeSpent, BytesAt;
      SpentIs(i.prev, o, i.sequence);
      var k := |CompactSize(|o.script|)| + |o.script|;
      Inside(r, 1, e, 0, i.prev.txid);
      Inside(r, 1, e, 44, CompactSize(|o.script|) + o.script);
      NumberInside(r, 1, e, 32, 4, i.prev.vout);
      NumberInside(r, 1, e, 36, 8, o.value);
      NumberInside(r, 1, e, 44 + k, 4, i.sequence);
    } else {
      U32Bound(index);
      NumberIs(r, 1, 4, index);
    }
  }

  lemma SliceOfSlice(m: Bytes, at: nat, n: nat, k: nat, l: nat)
    requires at + n <= |m| && k + l <= n
    ensures m[at..at + n][k..k + l] == m[at + k..at + k + l]
  {
    var x, y := m[at..at + n][k..k + l], m[at + k..at + k + l];
    assert forall i :: 0 <= i < l ==> x[i] == y[i];
  }

  lemma Inside(m: Bytes, at: nat, e: Bytes, k: nat, b: Bytes)
    requires BytesAt(m, at, e) && BytesAt(e, k, b)
    ensures BytesAt(m, at + k, b)
  {
    SliceOfSlice(m, at, |e|, k, |b|);
  }

  lemma NumberInside(m: Bytes, at: nat, e: Bytes, k: nat, width: nat, n: nat)
    requires BytesAt(m, at, e) && NumberAt(e, k, width, n)
    ensures NumberAt(m, at + k, width, n)
  {
    SliceOfSlice(m, at, |e|, k, width);
  }

  lemma InputShifted(m: Bytes, at: nat, t: Byte, i: TxIn, o: TxOut, index: U32)
    requires at <= |m| && InputLayout(m[at..], 1, t, i, o, index)
    ensures InputLayout(m, at + 1, t, i, o, index)
  {
    hide NumberAt, BytesAt, CompactSize;
    if t < 0x80 {
      NumberShifted(m, at, 1, 4, index);
    } else {
      var k := |CompactSize(|o.script|)| + |o.script|;
      Shifted(m, at, 1, i.prev.txid);
      NumberShifted(m, at, 33, 4, i.prev.vout);
      NumberShifted(m, at, 37, 8, o.value);
      Shifted(m, at, 45, CompactSize(|o.script|) + o.script);
      NumberShifted(m, at, 45 + k, 4, i.sequence);
    }
  }

  // ---- SIGHASH_ALL fixes the whole transaction -----------------------------------------

  ghost predicate SelfDelimiting<T(!new)>(enc: T -> Bytes) {
    && (forall a :: enc(a) != [])
    && (forall a, b, x, y :: enc(a) + x == enc(b) + y ==> a == b && x == y)
  }

  lemma ConcatCons<T>(enc: T -> Bytes, xs: seq<T>)
    requires xs != []
    ensures Concat(enc, xs) == enc(xs[0]) + Concat(enc, xs[1..])
  {
    if |xs| == 1 {
      assert Concat(enc, xs) == [] + enc(xs[0]);
      assert enc(xs[0]) + [] == enc(xs[0]);
    } else {
      ConcatCons(enc, Pop(xs));
      assert Pop(xs)[1..] == Pop(xs[1..]);
      Assoc(enc(xs[0]), Concat(enc, Pop(xs[1..])), enc(Last(xs)));
    }
  }

  lemma {:induction false} ConcatUnique<T(!new)>(enc: T -> Bytes, xs: seq<T>, ys: seq<T>)
    requires SelfDelimiting(enc) && Concat(enc, xs) == Concat(enc, ys)
    ensures xs == ys
  {
    if xs != [] { ConcatCons(enc, xs); }
    if ys != [] { ConcatCons(enc, ys); }
    if xs != [] && ys != [] {
      assert enc(xs[0]) + Concat(enc, xs[1..]) == enc(ys[0]) + Concat(enc, ys[1..]);
      ConcatUnique(enc, xs[1..], ys[1..]);
      assert xs == [xs[0]] + xs[1..] && ys == [ys[0]] + ys[1..];
    }
  }

  lemma TakeScript(a: Script, b: Script, x: Bytes, y: Bytes)
    requires EncodeScript(a) + x == EncodeScript(b) + y
    ensures a == b && x == y
  {
    hide CompactSize;
    Assoc(CompactSize(|a|), a, x);
    Assoc(CompactSize(|b|), b, y);
    CompactPrefix(|a|, |b|, a + x, b + y);
    FixedPrefix(a, b, x, y);
  }

  lemma TakeU64(a: U64, b: U64, x: Bytes, y: Bytes)
    requires EncodeU64(a) + x == EncodeU64(b) + y
    ensures a == b && x == y
  {
    FixedPrefix(Le(a, 8), Le(b, 8), x, y);
    Pow256Values();
    LeInjective(a, b, 8);
  }

  lemma Delimited()
    ensures SelfDelimiting(EncodeOutPoint) && SelfDelimiting(EncodeU32) && SelfDelimiting(EncodeU64)
    ensures SelfDelimiting(EncodeScript) && SelfDelimiting(EncodeTxOut)
  {
    hide Le, CompactSize;
    forall a, b, x, y | EncodeOutPoint(a) + x == EncodeOutPoint(b) + y
      ensures a == b && x == y
    {
      TakeOutPoint(a, b, x, y);
    }
    forall a, b, x, y | EncodeU32(a) + x == EncodeU32(b) + y ensures a == b && x == y { TakeU32(a, b, x, y); }
    forall a, b, x, y | EncodeU64(a) + x == EncodeU64(b) + y ensures a == b && x == y { TakeU64(a, b, x, y); }
    forall a, b, x, y | EncodeScript(a) + x == EncodeScript(b) + y ensures a == b && x == y { TakeScript(a, b, x, y); }
    forall a, b, x, y | EncodeTxOut(a) + x == EncodeTxOut(b) + y ensures a == b && x == y { TakeTxOut(a, b, x, y); }
    forall a: Script ensures EncodeScript(a) != [] { assert |CompactSize(|a|)| > 0; }
  }

  predicate NoCollision(sha: Sha, x: Bytes, y: Bytes) { sha(x) == sha(y) ==> x == y }

  /** SHA-256 does not collide on the five streams of these two transactions. */
  predicate NoneCollide(sha: Sha, tx: Tx, spent: seq<TxOut>, tx': Tx, spent': seq<TxOut>) {
    && NoCollision(sha, Prevouts(tx.inputs), Prevouts(tx'.inputs))
    && NoCollision(sha, Sequences(tx.inputs), Sequences(tx'.inputs))
    && NoCollision(sha, Amounts(spent), Amounts(spent'))
    && NoCollision(sha, Scripts(spent), Scripts(spent'))
    && NoCollision(sha, Outputs(tx.outputs), Outputs(tx'.outputs))
  }

  lemma InputsFixed(a: seq<TxIn>, b: seq<TxIn>)
    requires Prevouts(a) == Prevouts(b) && Sequences(a) == Sequences(b)
    ensures a == b
  {
    hide Concat;
    Delimited();
    ConcatUnique(EncodeOutPoint, PrevOf(a), PrevOf(b));
    ConcatUnique(EncodeU32, SequenceOf(a), SequenceOf(b));
    assert |a| == |PrevOf(a)| == |b|;
    forall i | 0 <= i < |a| ensures a[i] == b[i] {
      assert PrevOf(a)[i] == PrevOf(b)[i] && SequenceOf(a)[i] == SequenceOf(b)[i];
    }
  }

  lemma SpentFixed(a: seq<TxOut>, b: seq<TxOut>)
    requires Amounts(a) == Amounts(b) && Scripts(a) == Scripts(b)
    ensures a == b
  {
    hide Concat;
    Delimited();
    ConcatUnique(EncodeU64, ValueOf(a), ValueOf(b));
    ConcatUnique(EncodeScript, ScriptOf(a), ScriptOf(b));
    assert |a| == |ValueOf(a)| == |b|;
    forall i | 0 <= i < |a| ensures a[i] == b[i] {
      assert ValueOf(a)[i] == ValueOf(b)[i] && ScriptOf(a)[i] == ScriptOf(b)[i];
    }
  }

  datatype SigCheck = SigCheck(tx: Tx, spent: seq<TxOut>, index: U32, q: Request)

  predicate Callable(c: SigCheck) { c.index < |c.tx.inputs| && ValidRequest(c.q) }

  predicate SameMessage(sha: Sha, c: SigCheck, d: SigCheck)
    requires Callable(c) && Callable(d)
  {
    && FreshMessage(sha, c.tx, c.spent, c.index, c.q).Some?
    && FreshMessage(sha, c.tx, c.spent, c.index, c.q) == FreshMessage(sha, d.tx, d.spent, d.index, d.q)
  }

  /** The same input of the same transaction spending the same outputs the same way; exec data
      counts where it is committed to. */
  predicate SameCheck(c: SigCheck, d: SigCheck) {
    && c.tx == d.tx && c.spent == d.spent && c.index == d.index
    && c.q.hashType == d.q.hashType && c.q.tapscript == d.q.tapscript && c.q.exec.annexPresent == d.q.exec.annexPresent
    && (c.q.tapscript ==>
          c.q.exec.tapleafHash == d.q.exec.tapleafHash && c.q.exec.codeSeparatorPos == d.q.exec.codeSeparatorPos)
    && (c.q.exec.annexPresent ==> c.q.exec.annexHash == d.q.exec.annexHash)
  }

  /** Two checks under SIGHASH_ALL or SIGHASH_DEFAULT with the same message are the same. */
  lemma AllFixesTransaction(sha: Sha, c: SigCheck, d: SigCheck)
    requires Callable(c) && Callable(d)
    ensures c.q.hashType <= 1 && SameMessage(sha, c, d) && NoneCollide(sha, c.tx, c.spent, d.tx, d.spent) ==>
            SameCheck(c, d)
  {
    hide Message, Prevouts, Sequences, Amounts, Scripts, Outputs, Concat;
    if c.q.hashType <= 1 && SameMessage(sha, c, d) && NoneCollide(sha, c.tx, c.spent, d.tx, d.spent) {
      MessageUnique(Commitment(sha, c.tx, c.spent, c.index, c.q).value,
        Commitment(sha, d.tx, d.spent, d.index, d.q).value);
      InputsFixed(c.tx.inputs, d.tx.inputs);
      SpentFixed(c.spent, d.spent);
      OutputsFixed(c.tx.outputs, d.tx.outputs);
    }
  }

  lemma OutputsFixed(a: seq<TxOut>, b: seq<TxOut>)
    requires Outputs(a) == Outputs(b)
    ensures a == b
  {
    hide Concat;
    Delimited();
    ConcatUnique(EncodeTxOut, a, b);
  }

  // ---- The shared cache ----------------------------------------------------------------

  lemma ConcatNext<T>(enc: T -> Bytes, xs: seq<T>, x: T)
    ensures Concat(enc, xs + [x]) == Concat(enc, xs) + enc(x)
  {
    assert Pop(xs + [x]) == xs && Last(xs + [x]) == x;
  }

  method ComputeTxHashes(sha: Sha, tx: Tx, spent: seq<TxOut>) returns (h: TxHashes)
    ensures h == ComputeHashes(sha, tx, spent)
  {
    hide EncodeOutPoint, EncodeTxOut, EncodeU32, EncodeU64, EncodeScript, Concat;
    var prevouts: Bytes, sequences := InputStreams(tx.inputs);
    var amounts: Bytes, scripts := SpentStreams(spent);
    var outputs: Bytes := [];
    var i := 0;
    assert Outputs(tx.outputs[..0]) == [] by { ConcatEmpty(EncodeTxOut); }
    while i < |tx.outputs|
      invariant 0 <= i <= |tx.outputs|
      invariant outputs == Outputs(tx.outputs[..i])
    {
      ConcatNext(EncodeTxOut, tx.outputs[..i], tx.outputs[i]);
      assert tx.outputs[..i] + [tx.outputs[i]] == tx.outputs[..i + 1];
      outputs := outputs + EncodeTxOut(tx.outputs[i]);
      i := i + 1;
    }
    assert tx.outputs[..|tx.outputs|] == tx.outputs;
    h := TxHashes(InputHashes(sha(prevouts), sha(amounts), sha(scripts), sha(sequences)), sha(outputs));
  }

  lemma ConcatEmpty<T>(enc: T -> Bytes)
    ensures Concat(enc, []) == []
  {
  }

  method InputStreams(ins: seq<TxIn>) returns (prevouts: Bytes, sequences: Bytes)
    ensures prevouts == Prevouts(ins) && sequences == Sequences(ins)
  {
    hide EncodeOutPoint, EncodeU32, Concat;
    prevouts, sequences := [], [];
    ConcatEmpty(EncodeOutPoint);
    ConcatEmpty(EncodeU32);
    assert PrevOf(ins[..0]) == [] && SequenceOf(ins[..0]) == [];
    var i := 0;
    while i < |ins|
      invariant 0 <= i <= |ins|
      invariant prevouts == Prevouts(ins[..i]) && sequences == Sequences(ins[..i])
    {
      assert PrevOf(ins[..i]) + [ins[i].prev] == PrevOf(ins[..i + 1]);
      assert SequenceOf(ins[..i]) + [ins[i].sequence] == SequenceOf(ins[..i + 1]);
      ConcatNext(EncodeOutPoint, PrevOf(ins[..i]), ins[i].prev);
      ConcatNext(EncodeU32, SequenceOf(ins[..i]), ins[i].sequence);
      prevouts := prevouts + EncodeOutPoint(ins[i].prev);
      sequences := sequences + EncodeU32(ins[i].sequence);
      i := i + 1;
    }
    assert ins[..|ins|] == ins;
  }

  method SpentStreams(spent: seq<TxOut>) returns (amounts: Bytes, scripts: Bytes)
    ensures amounts == Amounts(spent) && scripts == Scripts(spent)
  {
    hide EncodeU64, EncodeScript, Concat;
    amounts, scripts := [], [];
    ConcatEmpty(EncodeU64);
    ConcatEmpty(EncodeScript);
    assert ValueOf(spent[..0]) == [] && ScriptOf(spent[..0]) == [];
    var i := 0;
    while i < |spent|
      invariant 0 <= i <= |spent|
      invariant amounts == Amounts(spent[..i]) && scripts == Scripts(spent[..i])
    {
      assert ValueOf(spent[..i]) + [spent[i].value] == ValueOf(spent[..i + 1]);
      assert ScriptOf(spent[..i]) + [spent[i].script] == ScriptOf(spent[..i + 1]);
      ConcatNext(EncodeU64, ValueOf(spent[..i]), spent[i].value);
      ConcatNext(EncodeScript, ScriptOf(spent[..i]), spent[i].script);
      amounts := amounts + EncodeU64(spent[i].value);
      scripts := scripts + EncodeScript(spent[i].script);
      i := i + 1;
    }
    assert spent[..|spent|] == spent;
  }

  /** Filled on the first Schnorr check of any input. */
  class TxSighashCache {
    var taproot: Option<TxHashes>

    constructor ()
      ensures taproot == None
    {
      taproot := None;
    }
  }

  class TxSignatureChecker {
    const sha: Sha
    const tx: Tx
    const inputIndex: U32
    const prevOutputs: seq<TxOut>
    const cache: TxSighashCache
    var singleOutputHash: Option<Option<Hash32>>   // filled on the first SIGHASH_SINGLE check

    /** What is cached is what a fresh computation would give. */
    ghost predicate Valid()
      reads this, cache
    {
      && inputIndex < |tx.inputs|
      && (cache.taproot.Some? ==> cache.taproot.value == ComputeHashes(sha, tx, prevOutputs))
      && (singleOutputHash.Some? ==> singleOutputHash.value == SingleHash(sha, tx, inputIndex))
    }

    constructor (sha: Sha, tx: Tx, inputIndex: U32, prevOutputs: seq<TxOut>, cache: TxSighashCache)
      requires inputIndex < |tx.inputs|
      requires cache.taproot.Some? ==> cache.taproot.value == ComputeHashes(sha, tx, prevOutputs)
      ensures Valid() && this.sha == sha && this.tx == tx && this.inputIndex == inputIndex
      ensures this.prevOutputs == prevOutputs && this.cache == cache
    {
      this.sha, this.tx, this.inputIndex, this.prevOutputs, this.cache := sha, tx, inputIndex, prevOutputs, cache;
      singleOutputHash := None;
    }

    method TaprootSighash(q: Request) returns (r: Option<Bytes>)
      requires Valid() && ValidRequest(q)
      modifies this, cache
      ensures Valid() && r == FreshMessage(sha, tx, prevOutputs, inputIndex, q)
    {
      hide ComputeHashes, EncodeInputs, EncodeSpent, Optional, Le, SingleHash, EncodeLeaf, Message;
      var t := q.hashType;
      if !(t <= 0x03 || 0x81 <= t <= 0x83) { return None; }
      if |prevOutputs| != |tx.inputs| { return None; }
      var outputType: Byte := if t == 0 then 0x01 else if t >= 0x80 then t - 0x80 else t;
      var anyoneCanPay := t >= 0x80;
      if cache.taproot.None? {
        var computed := ComputeTxHashes(sha, tx, prevOutputs);
        cache.taproot := Some(computed);
      }
      var h := cache.taproot.value;
      var input := tx.inputs[inputIndex];
      var inputs := if anyoneCanPay then None else Some(h.inputs);
      var outputs := if outputType == 0x01 then Some(h.outputs) else None;
      var spent := if anyoneCanPay then ByInput(input.prev, prevOutputs[inputIndex], input.sequence)
        else ByIndex(inputIndex);
      var annex := if q.exec.annexPresent then Some(q.exec.annexHash) else None;
      var leaf := if q.tapscript then Some(Leaf(q.exec.tapleafHash, q.exec.codeSeparatorPos)) else None;
      var spendType: Byte := (if q.tapscript then 2 else 0) + (if q.exec.annexPresent then 1 else 0);

      var e: Bytes := [0x00, t] + Le(tx.version, 4) + Le(tx.lockTime, 4);
      e := e + EncodeInputs(inputs);
      e := e + Optional(outputs);
      e := e + [spendType];
      e := e + EncodeSpent(spent);
      e := e + Optional(annex);
      var single: Option<Hash32> := None;
      if outputType == 0x03 {
        if singleOutputHash.None? {
          var s := FillSingle();
          singleOutputHash := Some(s);
        }
        single := singleOutputHash.value;
        if single.None? { return None; }
      }
      e := e + Optional(single);
      e := e + EncodeLeaf(leaf);
      FedMessage(Committed(t, tx.version, tx.lockTime, inputs, outputs, spent, annex, single, leaf));
      return Some(e);
    }

    method FillSingle() returns (s: Option<Hash32>)
      ensures s == SingleHash(sha, tx, inputIndex)
    {
      if inputIndex >= |tx.outputs| { return None; }
      return Some(sha(EncodeTxOut(tx.outputs[inputIndex])));
    }
  }

  /** Feeding the parts to the hash engine one after the other feeds it the message. */
  lemma FedMessage(c: Committed)
    ensures [0x00, c.hashType] + Le(c.version, 4) + Le(c.lockTime, 4) + EncodeInputs(c.inputs) + Optional(c.outputs)
              + [SpendType(c)] + EncodeSpent(c.spent) + Optional(c.annex) + Optional(c.single) + EncodeLeaf(c.leaf)
            == Message(c)
  {
    hide EncodeInputs, EncodeSpent, Optional, Le, EncodeLeaf;
    var v, l, i, leaf := Le(c.version, 4), Le(c.lockTime, 4), EncodeInputs(c.inputs), EncodeLeaf(c.leaf);
    var a, b, s, o := Optional(c.annex), Optional(c.single), EncodeSpent(c.spent), Optional(c.outputs);
    var x := [SpendType(c)];
    var head := [0x00, c.hashType] + v + l + i;
    var tail := o + (x + (s + (a + (b + leaf))));
    assert head + o + x + s + a + b + leaf == head + tail;
    assert head + tail == [0x00, c.hashType] + (v + (l + (i + tail)));
  }

  /** One cache for the transaction, shared by any number of verifications of any of its
      inputs, in any order and repeated at will, each with any number of checks under any
      hash types: every check sees the message that a fresh computation gives. */
  method CheckAll(sha: Sha, tx: Tx, spent: seq<TxOut>, plan: seq<(U32, seq<Request>)>)
    returns (all: seq<seq<Option<Bytes>>>)
    requires forall i :: 0 <= i < |plan| ==> plan[i].0 < |tx.inputs|
    requires forall i, j :: 0 <= i < |plan| && 0 <= j < |plan[i].1| ==> ValidRequest(plan[i].1[j])
    ensures |all| == |plan|
    ensures forall i :: 0 <= i < |plan| ==> |all[i]| == |plan[i].1|
    ensures forall i, j :: 0 <= i < |plan| && 0 <= j < |plan[i].1| ==>
              all[i][j] == FreshMessage(sha, tx, spent, plan[i].0, plan[i].1[j])
  {
    hide FreshMessage;
    all := [];
    var cache := new TxSighashCache();
    var i := 0;
    while i < |plan|
      invariant 0 <= i <= |plan| && |all| == i && fresh(cache)
      invariant cache.taproot.Some? ==> cache.taproot.value == ComputeHashes(sha, tx, spent)
      invariant forall k :: 0 <= k < i ==> |all[k]| == |plan[k].1|
      invariant forall k, j :: 0 <= k < i && 0 <= j < |plan[k].1| ==>
                  all[k][j] == FreshMessage(sha, tx, spent, plan[k].0, plan[k].1[j])
    {
      var (index, requests) := plan[i];
      var checker := new TxSignatureChecker(sha, tx, index, spent, cache);
      var got: seq<Option<Bytes>> := [];
      var j := 0;
      while j < |requests|
        invariant 0 <= j <= |requests| && |got| == j && checker.Valid()
        invariant fresh(checker) && checker.cache == cache && checker.sha == sha && checker.tx == tx
        invariant checker.prevOutputs == spent && checker.inputIndex == index
        invariant forall k :: 0 <= k < j ==> got[k] == FreshMessage(sha, tx, spent, index, requests[k])
      {
        var m := checker.TaprootSighash(requests[j]);
        got := got + [m];
        j := j + 1;
      }
      all := all + [got];
      i := i + 1;
    }
  }
}
