/** The transaction decoder of the Go client: a bounds-checked reader, the legacy and the
    BIP 144 serialization, and the legacy bytes from which the txid is hashed. */
module TxDecode {
  import opened ScriptTypes
  import opened ScriptNum
  import opened Wire
  import opened TaprootSighash

  datatype Input = Input(prev: OutPoint, scriptSig: Script, sequence: U32)
  datatype Transaction = Transaction(version: U32, inputs: seq<Input>, outputs: seq<TxOut>, lockTime: U32)
  type Witness = w: seq<Script> | |w| < 0x1_0000_0000_0000_0000

  // ---- The two serializations ----------------------------------------------------------

  function EncodeInput(i: Input): Bytes {
    EncodeOutPoint(i.prev) + (EncodeScript(i.scriptSig) + EncodeU32(i.sequence))
  }

  function EncodeWitness(w: Witness): Bytes { CompactSize(|w|) + Concat(EncodeScript, w) }

  /** The part that both forms share. */
  function Body(t: Transaction): Bytes {
    CompactSize(|t.inputs|) +
      (Concat(EncodeInput, t.inputs) + (CompactSize(|t.outputs|) + Concat(EncodeTxOut, t.outputs)))
  }

  function LegacyForm(t: Transaction): Bytes { EncodeU32(t.version) + (Body(t) + EncodeU32(t.lockTime)) }

  /** Section "Serialization" of BIP 144: marker, flag, and one witness per input. */
  function SegwitForm(t: Transaction, witnesses: seq<Witness>): Bytes {
    EncodeU32(t.version) + ([0x00, 0x01] + (Body(t) + (Concat(EncodeWitness, witnesses) + EncodeU32(t.lockTime))))
  }

  predicate Canonical(t: Transaction) {
    0 < |t.inputs| < 0x1_0000_0000_0000_0000 && |t.outputs| < 0x1_0000_0000_0000_0000
  }

  // ---- Where each field is -------------------------------------------------------------

  lemma InputFields(i: Input)
    ensures var e, s := EncodeInput(i), CompactSize(|i.scriptSig|) + i.scriptSig;
            && |e| == 36 + |s| + 4 && BytesAt(e, 0, i.prev.txid) && NumberAt(e, 32, 4, i.prev.vout)
            && BytesAt(e, 36, s) && NumberAt(e, 36 + |s|, 4, i.sequence)
  {
    hide Le, CompactSize, NumberAt;
    var e, h, v, s, q := EncodeInput(i), i.prev.txid, Le(i.prev.vout, 4), EncodeScript(i.scriptSig), Le(i.sequence, 4);
    assert e == h + (v + (s + q)) by { Assoc(h, v, s + q); }
    assert [] + e == e && q + [] == q;
    Slice(e, [], h, v + (s + q));
    Slice(e, [] + h, v, s + q);
    Slice(e, [] + h + v, s, q);
    Slice(e, [] + h + v + s, q, []);
    U32Bound(i.prev.vout);
    U32Bound(i.sequence);
    NumberIs(e, 32, 4, i.prev.vout);
    NumberIs(e, 36 + |s|, 4, i.sequence);
  }

  lemma OutputFields(o: TxOut)
    ensures var e, s := EncodeTxOut(o), CompactSize(|o.script|) + o.script;
            |e| == 8 + |s| && NumberAt(e, 0, 8, o.value) && BytesAt(e, 8, s)
  {
    hide Le, CompactSize, NumberAt;
    var e, v, s := EncodeTxOut(o), Le(o.value, 8), CompactSize(|o.script|) + o.script;
    assert [] + e == e && s + [] == s;
    Slice(e, [], v, s);
    Slice(e, [] + v, s, []);
    Pow256Values();
    NumberIs(e, 0, 8, o.value);
  }

  /** The legacy form: version, body, lock time. */
  lemma LegacyFields(t: Transaction)
    ensures var b, l := Body(t), LegacyForm(t);
            |l| == |b| + 8 && NumberAt(l, 0, 4, t.version) && BytesAt(l, 4, b) && NumberAt(l, 4 + |b|, 4, t.lockTime)
  {
    hide Le, NumberAt, Body;
    var l, v, b, n := LegacyForm(t), Le(t.version, 4), Body(t), Le(t.lockTime, 4);
    assert [] + l == l && n + [] == n;
    Slice(l, [], v, b + n);
    Slice(l, [] + v, b, n);
    Slice(l, [] + v + b, n, []);
    U32Bound(t.version);
    U32Bound(t.lockTime);
    NumberIs(l, 0, 4, t.version);
    NumberIs(l, 4 + |b|, 4, t.lockTime);
  }

  /** In the segwit form a zero and a one come after the version, and the witnesses before the
      lock time. */
  lemma SegwitFields(t: Transaction, witnesses: seq<Witness>)
    ensures var b, ws, s := Body(t), Concat(EncodeWitness, witnesses), SegwitForm(t, witnesses);
            && |s| == |b| + |ws| + 10 && NumberAt(s, 0, 4, t.version) && BytesAt(s, 4, [0, 1]) && BytesAt(s, 6, b)
            && BytesAt(s, 6 + |b|, ws) && NumberAt(s, 6 + |b| + |ws|, 4, t.lockTime)
  {
    hide Le, NumberAt, Body, Concat;
    var s, v, m: Bytes, b, ws, n := SegwitForm(t, witnesses), Le(t.version, 4), [0x00, 0x01], Body(t),
      Concat(EncodeWitness, witnesses), Le(t.lockTime, 4);
    assert [] + s == s && n + [] == n;
    Slice(s, [], v, m + (b + (ws + n)));
    Slice(s, [] + v, m, b + (ws + n));
    Slice(s, [] + v + m, b, ws + n);
    Slice(s, [] + v + m + b, ws, n);
    Slice(s, [] + v + m + b + ws, n, []);
    U32Bound(t.version);
    U32Bound(t.lockTime);
    NumberIs(s, 0, 4, t.version);
    NumberIs(s, 6 + |b| + |ws|, 4, t.lockTime);
  }

  /** The body: input count, inputs in order, output count, outputs in order. */
  lemma BodyFields(t: Transaction)
    ensures var n, ins, m, outs := CompactSize(|t.inputs|), Concat(EncodeInput, t.inputs), CompactSize(|t.outputs|),
              Concat(EncodeTxOut, t.outputs);
            Body(t) == n + ins + m + outs
  {
    hide Concat, CompactSize;
    var n, ins, m, outs := CompactSize(|t.inputs|), Concat(EncodeInput, t.inputs), CompactSize(|t.outputs|),
      Concat(EncodeTxOut, t.outputs);
    assert n + (ins + (m + outs)) == n + ins + m + outs;
  }

  // ---- Parsing as a function -----------------------------------------------------------

  type Parsed<T> = Option<(T, Bytes)>
  type Parser<T> = Bytes -> Option<(T, Bytes)>

  function TakeFixed(n: nat, b: Bytes): Parsed<Bytes> {
    if |b| < n then None else Some((b[..n], b[n..]))
  }

  function TakeU32At(b: Bytes): Parsed<U32> {
    if |b| < 4 then None else (LeWithin32(b[..4]); Some((LeValue(b[..4]), b[4..])))
  }

  function TakeU64At(b: Bytes): Parsed<U64> {
    if |b| < 8 then None else (LeFitsWord(b[..8]); Some((LeValue(b[..8]), b[8..])))
  }

  lemma LeWithin32(b: Bytes)
    requires |b| == 4
    ensures LeValue(b) < 0x1_0000_0000
  {
    LeValueBound(b);
    Pow256Values();
  }

  function TakeCount(b: Bytes): Parsed<U64> {
    match ReadCompact(b) case None => None case Some(p) => Some((p.0, b[p.1..]))
  }

  function TakeVar(b: Bytes): Parsed<Script> {
    match TakeCount(b)
    case None => None
    case Some(p) => if |p.1| < p.0 then None else Some((p.1[..p.0], p.1[p.0..]))
  }

  function TakeInput(b: Bytes): Parsed<Input> {
    match TakeFixed(32, b) case None => None case Some(h) =>
      match TakeU32At(h.1) case None => None case Some(v) =>
        match TakeVar(v.1) case None => None case Some(s) =>
          match TakeU32At(s.1) case None => None case Some(q) =>
            Some((Input(OutPoint(h.0, v.0), s.0, q.0), q.1))
  }

  function TakeOutput(b: Bytes): Parsed<TxOut> {
    match TakeU64At(b) case None => None case Some(v) =>
      match TakeVar(v.1) case None => None case Some(s) =>
        Some((TxOut(v.0, s.0), s.1))
  }

  /** n items in a row. */
  function Many<T>(take: Parser<T>, n: nat, b: Bytes): (r: Option<(seq<T>, Bytes)>)
    ensures r.Some? ==> |r.value.0| == n
  {
    if n == 0 then Some(([], b))
    else match take(b) case None => None case Some(p) =>
      match Many(take, n - 1, p.1) case None => None case Some(q) =>
        Some(([p.0] + q.0, q.1))
  }

  function TakeWitness(b: Bytes): Parsed<Witness> {
    match TakeCount(b) case None => None case Some(n) => Many(TakeVar, n.0, n.1)
  }

  /** The input count, and whether a segwit marker came before it. */
  function TakeInputCount(b: Bytes): Option<(U64, bool, Bytes)> {
    match TakeCount(b) case None => None case Some(n) =>
      if n.0 != 0 then Some((n.0, false, n.1))
      else if n.1 == [] || n.1[0] != 0x01 then None
      else match TakeCount(n.1[1..]) case None => None case Some(m) =>
        if m.0 == 0 then None else Some((m.0, true, m.1))
  }

  /** Decoding with no guard on the counts; bytes after the lock time are ignored. */
  function Decode(raw: Bytes): Option<Transaction> {
    match TakeU32At(raw) case None => None case Some(v) =>
      match TakeInputCount(v.1) case None => None case Some(n) =>
        match Many(TakeInput, n.0, n.2) case None => None case Some(ins) =>
          match TakeCount(ins.1) case None => None case Some(m) =>
            match Many(TakeOutput, m.0, m.1) case None => None case Some(outs) =>
              match Many(TakeWitness, if n.1 then n.0 else 0, outs.1) case None => None case Some(ws) =>
                match TakeU32At(ws.1) case None => None case Some(l) =>
                  Some(Transaction(v.0, ins.0, outs.0, l.0))
  }

  // ---- Reading back what was written ---------------------------------------------------

  lemma U32Back(n: U32, x: Bytes)
    ensures TakeU32At(EncodeU32(n) + x) == Some((n, x))
  {
    var b := EncodeU32(n) + x;
    assert b[..4] == Le(n, 4) && b[4..] == x;
    Pow256Values();
    LeRoundTrip(n, 4);
  }

  lemma U64Back(n: U64, x: Bytes)
    ensures TakeU64At(EncodeU64(n) + x) == Some((n, x))
  {
    var b := EncodeU64(n) + x;
    assert b[..8] == Le(n, 8) && b[8..] == x;
    Pow256Values();
    LeRoundTrip(n, 8);
  }

  lemma CountBack(n: U64, x: Bytes)
    ensures TakeCount(CompactSize(n) + x) == Some((n, x))
  {
    CompactRoundTrip(n, x);
    assert (CompactSize(n) + x)[|CompactSize(n)|..] == x;
  }

  lemma ScriptBack(s: Script, x: Bytes)
    ensures TakeVar(EncodeScript(s) + x) == Some((s, x))
  {
    hide CompactSize, TakeCount;
    Assoc(CompactSize(|s|), s, x);
    CountBack(|s|, s + x);
    assert (s + x)[..|s|] == s && (s + x)[|s|..] == x;
  }

  lemma InputBack(i: Input, x: Bytes)
    ensures TakeInput(EncodeInput(i) + x) == Some((i, x))
  {
    hide Le, CompactSize, TakeVar, TakeU32At, EncodeU32, EncodeScript;
    var s, q := EncodeScript(i.scriptSig), EncodeU32(i.sequence);
    assert EncodeOutPoint(i.prev) == i.prev.txid + EncodeU32(i.prev.vout) by { OutPointParts(i.prev); }
    var h, v := i.prev.txid, EncodeU32(i.prev.vout);
    assert EncodeInput(i) + x == h + (v + (s + (q + x))) by { Regroup4(h, v, s, q, x); }
    var b := h + (v + (s + (q + x)));
    assert b[..32] == h && b[32..] == v + (s + (q + x));
    U32Back(i.prev.vout, s + (q + x));
    ScriptBack(i.scriptSig, q + x);
    U32Back(i.sequence, x);
  }

  lemma OutPointParts(o: OutPoint)
    ensures EncodeOutPoint(o) == o.txid + EncodeU32(o.vout)
  {
  }

  lemma Regroup4(h: Bytes, v: Bytes, s: Bytes, q: Bytes, x: Bytes)
    ensures ((h + v) + (s + q)) + x == h + (v + (s + (q + x)))
  {
  }

  lemma OutputBack(o: TxOut, x: Bytes)
    ensures TakeOutput(EncodeTxOut(o) + x) == Some((o, x))
  {
    hide Le, CompactSize, TakeVar, TakeU64At, EncodeU64, EncodeScript;
    OutputParts(o);
    Assoc(EncodeU64(o.value), EncodeScript(o.script), x);
    U64Back(o.value, EncodeScript(o.script) + x);
    ScriptBack(o.script, x);
  }

  lemma OutputParts(o: TxOut)
    ensures EncodeTxOut(o) == EncodeU64(o.value) + EncodeScript(o.script)
  {
  }

  ghost predicate ReadsBack<T(!new)>(take: Parser<T>, enc: T -> Bytes) {
    forall t, x :: take(enc(t) + x) == Some((t, x))
  }

  lemma {:induction false} ManyBack<T(!new)>(take: Parser<T>, enc: T -> Bytes, ts: seq<T>, x: Bytes)
    requires ReadsBack(take, enc)
    ensures Many(take, |ts|, Concat(enc, ts) + x) == Some((ts, x))
  {
    if ts == [] {
      assert Concat(enc, ts) + x == x;
    } else {
      ConcatCons(enc, ts);
      Assoc(enc(ts[0]), Concat(enc, ts[1..]), x);
      assert take(enc(ts[0]) + (Concat(enc, ts[1..]) + x)) == Some((ts[0], Concat(enc, ts[1..]) + x));
      ManyBack(take, enc, ts[1..], x);
      assert [ts[0]] + ts[1..] == ts;
    }
  }

  lemma WitnessBack(w: Witness, x: Bytes)
    ensures TakeWitness(EncodeWitness(w) + x) == Some((w, x))
  {
    hide CompactSize, TakeCount, TakeVar, EncodeScript, Concat;
    Assoc(CompactSize(|w|), Concat(EncodeScript, w), x);
    CountBack(|w|, Concat(EncodeScript, w) + x);
    forall s, y ensures TakeVar(EncodeScript(s) + y) == Some((s, y)) { ScriptBack(s, y); }
    ManyBack(TakeVar, EncodeScript, w, x);
  }

  lemma AllBack()
    ensures ReadsBack(TakeInput, EncodeInput) && ReadsBack(TakeOutput, EncodeTxOut) &&
            ReadsBack(TakeWitness, EncodeWitness)
  {
    hide TakeInput, EncodeInput, TakeOutput, EncodeTxOut, TakeWitness, EncodeWitness;
    forall i, x ensures TakeInput(EncodeInput(i) + x) == Some((i, x)) { InputBack(i, x); }
    forall o, x ensures TakeOutput(EncodeTxOut(o) + x) == Some((o, x)) { OutputBack(o, x); }
    forall w, x ensures TakeWitness(EncodeWitness(w) + x) == Some((w, x)) { WitnessBack(w, x); }
  }

  /** The body reads back once the input count is known. */
  lemma BodyBack(t: Transaction, x: Bytes)
    requires Canonical(t)
    ensures Body(t) + x == CompactSize(|t.inputs|) + AfterCount(t, x)
    ensures Many(TakeInput, |t.inputs|, AfterCount(t, x)) ==
            Some((t.inputs, CompactSize(|t.outputs|) + (Concat(EncodeTxOut, t.outputs) + x)))
    ensures TakeCount(CompactSize(|t.outputs|) + (Concat(EncodeTxOut, t.outputs) + x)) ==
            Some((|t.outputs|, Concat(EncodeTxOut, t.outputs) + x))
    ensures Many(TakeOutput, |t.outputs|, Concat(EncodeTxOut, t.outputs) + x) == Some((t.outputs, x))
  {
    hide TakeInput, EncodeInput, TakeOutput, EncodeTxOut, CompactSize, Concat, Many, TakeCount;
    var n, i := CompactSize(|t.inputs|), Concat(EncodeInput, t.inputs);
    var m, o := CompactSize(|t.outputs|), Concat(EncodeTxOut, t.outputs);
    Regroup4(n, i, m, o, x);
    assert n + (i + (m + o)) == (n + i) + (m + o);
    AllBack();
    ManyBack(TakeInput, EncodeInput, t.inputs, m + (o + x));
    CountBack(|t.outputs|, o + x);
    ManyBack(TakeOutput, EncodeTxOut, t.outputs, x);
  }

  function AfterCount(t: Transaction, x: Bytes): Bytes {
    Concat(EncodeInput, t.inputs) + (CompactSize(|t.outputs|) + (Concat(EncodeTxOut, t.outputs) + x))
  }

  /** A transaction with an input decodes from its legacy form, whatever follows it. */
  lemma LegacyDecodes(t: Transaction, x: Bytes)
    requires Canonical(t)
    ensures Decode(LegacyForm(t) + x) == Some(t)
  {
    hide TakeInput, TakeOutput, TakeWitness, EncodeInput, EncodeTxOut, EncodeU32, CompactSize, Concat, Body,
      AfterCount, TakeCount, TakeU32At;
    var l := EncodeU32(t.lockTime) + x;
    Assoc(EncodeU32(t.version), Body(t) + EncodeU32(t.lockTime), x);
    Assoc(Body(t), EncodeU32(t.lockTime), x);
    U32Back(t.version, Body(t) + l);
    BodyBack(t, l);
    CountBack(|t.inputs|, AfterCount(t, l));
    U32Back(t.lockTime, x);
  }

  /** The BIP 144 form decodes to the same transaction, whatever its witnesses are. */
  lemma SegwitDecodes(t: Transaction, witnesses: seq<Witness>, x: Bytes)
    requires Canonical(t) && |witnesses| == |t.inputs|
    ensures Decode(SegwitForm(t, witnesses) + x) == Some(t)
  {
    hide TakeInput, TakeOutput, TakeWitness, EncodeInput, EncodeTxOut, EncodeWitness, EncodeU32, CompactSize, Concat,
      Body, AfterCount, TakeCount, TakeU32At;
    var l, ws := EncodeU32(t.lockTime) + x, Concat(EncodeWitness, witnesses);
    var rest := Body(t) + (ws + l);
    assert SegwitForm(t, witnesses) + x == EncodeU32(t.version) + ([0x00, 0x01] + rest) by {
      SegwitGroups(EncodeU32(t.version), [0x00, 0x01], Body(t), ws, EncodeU32(t.lockTime), x);
    }
    U32Back(t.version, [0x00, 0x01] + rest);
    MarkerBack(rest);
    BodyBack(t, ws + l);
    CountBack(|t.inputs|, AfterCount(t, ws + l));
    AllBack();
    ManyBack(TakeWitness, EncodeWitness, witnesses, l);
    U32Back(t.lockTime, x);
  }

  lemma SegwitGroups(v: Bytes, m: Bytes, b: Bytes, w: Bytes, l: Bytes, x: Bytes)
    ensures (v + (m + (b + (w + l)))) + x == v + (m + (b + (w + (l + x))))
  {
    assert (w + l) + x == w + (l + x);
    assert (b + (w + l)) + x == b + ((w + l) + x);
    assert (m + (b + (w + l))) + x == m + ((b + (w + l)) + x);
  }

  lemma MarkerBack(rest: Bytes)
    ensures TakeCount([0x00, 0x01] + rest) == Some((0, [0x01] + rest)) && ([0x01] + rest)[1..] == rest
  {
    assert ([0x00, 0x01] + rest)[1..] == [0x01] + rest;
  }

  /** Whatever bytes are accepted, shortest forms or not, the legacy bytes that are hashed
      are a canonical serialization which decodes to the same transaction. */
  lemma PreimageDecodes(raw: Bytes)
    requires Decode(raw).Some?
    ensures var t := Decode(raw).value; Canonical(t) && Decode(LegacyForm(t)) == Some(t)
  {
    var t := Decode(raw).value;
    hide Many, TakeU32At, TakeCount;
    assert Canonical(t);
    LegacyDecodes(t, []);
    assert LegacyForm(t) + [] == LegacyForm(t);
  }

  /** A zero input count is a segwit marker: a flag byte of one must follow, and then a count
      that is not zero. */
  lemma MarkerRule(raw: Bytes)
    requires |raw| >= 4
    ensures TakeCount(raw[4..]).Some? && TakeCount(raw[4..]).value.0 == 0 && Decode(raw).Some? ==>
              var rest := TakeCount(raw[4..]).value.1;
              rest != [] && rest[0] == 0x01 && TakeCount(rest[1..]).Some? && TakeCount(rest[1..]).value.0 > 0
    ensures TakeCount(raw[4..]).None? ==> Decode(raw).None?
  {
    hide TakeCount, Many;
  }

  // ---- The guard on the counts ---------------------------------------------------------

  ghost predicate Consumes<T>(take: Parser<T>, each: nat) {
    forall b :: take(b).Some? ==> |take(b).value.1| + each <= |b|
  }

  lemma {:induction false} ManySize<T>(take: Parser<T>, n: nat, b: Bytes, each: nat)
    requires Consumes(take, each) && Many(take, n, b).Some?
    ensures n * each + |Many(take, n, b).value.1| <= |b|
  {
    if n > 0 {
      assert take(b).Some?;
      ManySize(take, n - 1, take(b).value.1, each);
      assert n * each == (n - 1) * each + each;
    }
  }

  lemma ItemSizes()
    ensures Consumes(TakeVar, 1) && Consumes(TakeInput, 41) && Consumes(TakeOutput, 9)
  {
  }

  /** A count that the guard refuses could not have been read: the guard only saves the
      allocation, it never changes the outcome. */
  lemma GuardIsSound<T>(take: Parser<T>, n: nat, b: Bytes, each: nat)
    requires Consumes(take, each) && each > 0 && n > |b| / each
    ensures Many(take, n, b).None?
  {
    TooMany(n, |b|, each);
    if Many(take, n, b).Some? { ManySize(take, n, b, each); }
  }

  lemma TooMany(n: nat, b: nat, each: nat)
    requires each > 0 && n > b / each
    ensures n * each > b
  {
    var q := b / each;
    assert b < (q + 1) * each;
    assert (n - (q + 1)) * each >= 0;
  }

  // ---- The reader and the decoder ------------------------------------------------------

  function Joined<T>(done: seq<T>, r: Option<(seq<T>, Bytes)>): Option<(seq<T>, Bytes)> {
    match r case None => None case Some(p) => Some((done + p.0, p.1))
  }

  lemma JoinedNext<T>(take: Parser<T>, n: nat, b: Bytes, done: seq<T>)
    requires n > 0 && take(b).Some?
    ensures Joined(done, Many(take, n, b)) == Joined(done + [take(b).value.0], Many(take, n - 1, take(b).value.1))
  {
    var p := take(b).value;
    if Many(take, n - 1, p.1).Some? {
      Assoc(done, [p.0], Many(take, n - 1, p.1).value.0);
    }
  }

  class ByteReader {
    const buf: Bytes
    var pos: nat

    ghost predicate Valid()
      reads this
    {
      pos <= |buf|
    }

    function Rest(): Bytes
      requires Valid()
      reads this
    {
      buf[pos..]
    }

    constructor (buf: Bytes)
      ensures Valid() && this.buf == buf && Rest() == buf
    {
      this.buf := buf;
      pos := 0;
    }

    method Read(n: nat) returns (r: Option<Bytes>)
      requires Valid()
      modifies this
      ensures Valid()
      ensures match TakeFixed(n, old(Rest())) case None => r.None? case Some(p) => r == Some(p.0) && Rest() == p.1
    {
      if |buf| - pos < n { return None; }
      r := Some(buf[pos..pos + n]);
      assert buf[pos..][..n] == buf[pos..pos + n];
      pos := pos + n;
    }

    method Uint32() returns (r: Option<U32>)
      requires Valid()
      modifies this
      ensures Valid()
      ensures match TakeU32At(old(Rest())) case None => r.None? case Some(p) => r == Some(p.0) && Rest() == p.1
    {
      if |buf| - pos < 4 { return None; }
      assert buf[pos..][..4] == buf[pos..pos + 4];
      LeWithin32(buf[pos..pos + 4]);
      r := Some(LeValue(buf[pos..pos + 4]));
      pos := pos + 4;
    }

    method Uint64() returns (r: Option<U64>)
      requires Valid()
      modifies this
      ensures Valid()
      ensures match TakeU64At(old(Rest())) case None => r.None? case Some(p) => r == Some(p.0) && Rest() == p.1
    {
      if |buf| - pos < 8 { return None; }
      assert buf[pos..][..8] == buf[pos..pos + 8];
      LeFitsWord(buf[pos..pos + 8]);
      r := Some(LeValue(buf[pos..pos + 8]));
      pos := pos + 8;
    }

    method CompactSizeAt() returns (r: Option<U64>)
      requires Valid()
      modifies this
      ensures Valid()
      ensures match TakeCount(old(Rest())) case None => r.None? case Some(p) => r == Some(p.0) && Rest() == p.1
    {
      hide LeValue;
      ghost var start := Rest();
      var b := Read(1);
      if b.None? { return None; }
      var tag := b.value[0];
      if tag < 0xfd { return Some(tag); }
      if tag == 0xfd {
        if |buf| - pos < 2 { return None; }
        assert start[1..3] == buf[pos..pos + 2];
        LeFitsWord(buf[pos..pos + 2]);
        r := Some(LeValue(buf[pos..pos + 2]));
        pos := pos + 2;
      } else if tag == 0xfe {
        assert |Rest()| >= 4 ==> start[1..5] == Rest()[..4];
        var v := Uint32();
        r := match v case None => None case Some(n) => Some(n);
      } else {
        assert |Rest()| >= 8 ==> start[1..9] == Rest()[..8];
        r := Uint64();
      }
    }

    method VarBytes() returns (r: Option<Script>)
      requires Valid()
      modifies this
      ensures Valid()
      ensures match TakeVar(old(Rest())) case None => r.None? case Some(p) => r == Some(p.0) && Rest() == p.1
    {
      hide TakeCount;
      var n := CompactSizeAt();
      if n.None? || n.value > |buf| - pos { return None; }
      var b := Read(n.value);
      return b;
    }

    method CanHold(count: U64, minBytesEach: nat) returns (ok: bool)
      requires Valid() && minBytesEach > 0
      ensures ok <==> count <= |Rest()| / minBytesEach
    {
      ok := count <= (|buf| - pos) / minBytesEach;
    }
  }

  datatype Decoded = Decoded(txid: Hash32, inputs: seq<OutPoint>, outputs: seq<TxOut>)

  /** As many outpoints as inputs, each that of the input at its place. */
  predicate SpentBy(spends: seq<OutPoint>, ins: seq<Input>) {
    |spends| == |ins| && forall i :: 0 <= i < |ins| ==> spends[i] == ins[i].prev
  }

  method ReadInput(r: ByteReader) returns (res: Option<Input>)
    requires r.Valid()
    modifies r
    ensures r.Valid()
    ensures match TakeInput(old(r.Rest())) case None => res.None? case Some(p) => res == Some(p.0) && r.Rest() == p.1
  {
    hide TakeU32At, TakeVar;
    var txid := r.Read(32);
    if txid.None? { return None; }
    var vout := r.Uint32();
    if vout.None? { return None; }
    var script := r.VarBytes();
    if script.None? { return None; }
    var sequence := r.Uint32();
    if sequence.None? { return None; }
    return Some(Input(OutPoint(txid.value, vout.value), script.value, sequence.value));
  }

  method ReadOutput(r: ByteReader) returns (res: Option<TxOut>)
    requires r.Valid()
    modifies r
    ensures r.Valid()
    ensures match TakeOutput(old(r.Rest())) case None => res.None? case Some(p) => res == Some(p.0) && r.Rest() == p.1
  {
    hide TakeU64At, TakeVar;
    var value := r.Uint64();
    if value.None? { return None; }
    var script := r.VarBytes();
    if script.None? { return None; }
    return Some(TxOut(value.value, script.value));
  }

  method ReadInputs(r: ByteReader, count: U64, head: Bytes) returns (ok: bool, inputs: seq<OutPoint>, legacy: Bytes)
    requires r.Valid()
    modifies r
    ensures r.Valid()
    ensures match Many(TakeInput, count, old(r.Rest()))
            case None => !ok
            case Some(p) => ok && r.Rest() == p.1 && SpentBy(inputs, p.0) && legacy == head + Concat(EncodeInput, p.0)
  {
    hide TakeInput, EncodeInput, Concat, Many;
    inputs, legacy := [], head;
    ghost var start, done := r.Rest(), [];
    ConcatEmpty(EncodeInput);
    ManyNone(TakeInput, r.Rest());
    var i: nat := 0;
    JoinedEmpty(Many(TakeInput, count, start));
    while i < count
      invariant i <= count && r.Valid()
      invariant Many(TakeInput, count, start) == Joined(done, Many(TakeInput, count - i, r.Rest()))
      invariant SpentBy(inputs, done) && legacy == head + Concat(EncodeInput, done)
    {
      ghost var b := r.Rest();
      var input := ReadInput(r);
      if input.None? {
        ManyFails(TakeInput, count - i, b);
        return false, inputs, legacy;
      }
      JoinedNext(TakeInput, count - i, b, done);
      ConcatNext(EncodeInput, done, input.value);
      Assoc(head, Concat(EncodeInput, done), EncodeInput(input.value));
      done := done + [input.value];
      inputs := inputs + [input.value.prev];
      legacy := legacy + EncodeInput(input.value);
      i := i + 1;
    }
    ManyNone(TakeInput, r.Rest());
    assert done + [] == done;
    ok := true;
  }

  method ReadOutputs(r: ByteReader, count: U64, head: Bytes) returns (ok: bool, outputs: seq<TxOut>, legacy: Bytes)
    requires r.Valid()
    modifies r
    ensures r.Valid()
    ensures match Many(TakeOutput, count, old(r.Rest()))
            case None => !ok
            case Some(p) => ok && r.Rest() == p.1 && outputs == p.0 && legacy == head + Concat(EncodeTxOut, p.0)
  {
    hide TakeOutput, EncodeTxOut, Concat, Many;
    outputs, legacy := [], head;
    ghost var start := r.Rest();
    ConcatEmpty(EncodeTxOut);
    var i: nat := 0;
    JoinedEmpty(Many(TakeOutput, count, start));
    while i < count
      invariant i <= count && r.Valid()
      invariant Many(TakeOutput, count, start) == Joined(outputs, Many(TakeOutput, count - i, r.Rest()))
      invariant legacy == head + Concat(EncodeTxOut, outputs)
    {
      ghost var b := r.Rest();
      var output := ReadOutput(r);
      if output.None? {
        ManyFails(TakeOutput, count - i, b);
        return false, outputs, legacy;
      }
      JoinedNext(TakeOutput, count - i, b, outputs);
      ConcatNext(EncodeTxOut, outputs, output.value);
      Assoc(head, Concat(EncodeTxOut, outputs), EncodeTxOut(output.value));
      outputs := outputs + [output.value];
      legacy := legacy + EncodeTxOut(output.value);
      i := i + 1;
    }
    ManyNone(TakeOutput, r.Rest());
    assert outputs + [] == outputs;
    ok := true;
  }

  /** Read one witness, to get past it. */
  method SkipWitness(r: ByteReader) returns (ok: bool)
    requires r.Valid()
    modifies r
    ensures r.Valid()
    ensures match TakeWitness(old(r.Rest())) case None => !ok case Some(p) => ok && r.Rest() == p.1
  {
    hide TakeVar, TakeCount, Many;
    var items := r.CompactSizeAt();
    if items.None? { return false; }
    var fits := r.CanHold(items.value, 1);
    if !fits {
      ItemSizes();
      GuardIsSound(TakeVar, items.value, r.Rest(), 1);
      return false;
    }
    ghost var start, done := r.Rest(), [];
    JoinedEmpty(Many(TakeVar, items.value, start));
    var j: nat := 0;
    while j < items.value
      invariant j <= items.value && r.Valid()
      invariant Many(TakeVar, items.value, start) == Joined(done, Many(TakeVar, items.value - j, r.Rest()))
    {
      ghost var b := r.Rest();
      var item := r.VarBytes();
      if item.None? {
        ManyFails(TakeVar, items.value - j, b);
        return false;
      }
      JoinedNext(TakeVar, items.value - j, b, done);
      done := done + [item.value];
      j := j + 1;
    }
    ManyNone(TakeVar, r.Rest());
    ok := true;
  }

  method SkipWitnesses(r: ByteReader, count: nat) returns (ok: bool)
    requires r.Valid()
    modifies r
    ensures r.Valid()
    ensures match Many(TakeWitness, count, old(r.Rest())) case None => !ok case Some(p) => ok && r.Rest() == p.1
  {
    hide TakeWitness, Many;
    ghost var start, done := r.Rest(), [];
    JoinedEmpty(Many(TakeWitness, count, start));
    var i: nat := 0;
    while i < count
      invariant i <= count && r.Valid()
      invariant Many(TakeWitness, count, start) == Joined(done, Many(TakeWitness, count - i, r.Rest()))
    {
      ghost var b := r.Rest();
      var one := SkipWitness(r);
      if !one {
        ManyFails(TakeWitness, count - i, b);
        return false;
      }
      JoinedNext(TakeWitness, count - i, b, done);
      done := done + [TakeWitness(b).value.0];
      i := i + 1;
    }
    ManyNone(TakeWitness, r.Rest());
    ok := true;
  }

  lemma ManyNone<T>(take: Parser<T>, b: Bytes)
    ensures Many(take, 0, b) == Some(([], b))
  {
  }

  lemma ManyFails<T>(take: Parser<T>, n: nat, b: Bytes)
    requires n > 0 && take(b).None?
    ensures Many(take, n, b).None?
  {
  }

  lemma JoinedEmpty<T>(r: Option<(seq<T>, Bytes)>)
    ensures Joined([], r) == r
  {
    if r.Some? { assert [] + r.value.0 == r.value.0; }
  }

  method ReadInputCount(r: ByteReader) returns (res: Option<(U64, bool)>)
    requires r.Valid()
    modifies r
    ensures r.Valid()
    ensures match TakeInputCount(old(r.Rest()))
            case None => res.None?
            case Some(p) => res == Some((p.0, p.1)) && r.Rest() == p.2
  {
    hide TakeCount;
    var segwit := false;
    var count := r.CompactSizeAt();
    if count.None? { return None; }
    if count.value == 0 {
      var flag := r.Read(1);
      if flag.None? || flag.value[0] != 1 { return None; }
      segwit := true;
      count := r.CompactSizeAt();
      if count.None? { return None; }
    }
    if count.value == 0 { return None; }
    return Some((count.value, segwit));
  }

  /** Decode a transaction. The counts are guarded, the witnesses skipped, and the legacy
      serialization is rebuilt on the way: exactly the unguarded decoding, with the txid
      hashed from the canonical legacy form. */
  method DecodeTx(raw: Bytes, sha: Sha) returns (res: Option<Decoded>)
    ensures match Decode(raw)
            case None => res.None?
            case Some(t) =>
              && res.Some? && res.value.txid == sha(sha(LegacyForm(t)))
              && |res.value.inputs| == |t.inputs| && res.value.outputs == t.outputs
              && forall i :: 0 <= i < |t.inputs| ==> res.value.inputs[i] == t.inputs[i].prev
  {
    hide TakeU32At, TakeInputCount, TakeCount, Many, Concat, EncodeInput, EncodeTxOut, EncodeU32, CompactSize, Consumes;
    var r := new ByteReader(raw);
    var version := r.Uint32();
    if version.None? { return None; }
    var counted := ReadInputCount(r);
    if counted.None? { return None; }
    var (inputCount, segwit) := counted.value;
    ItemSizes();
    var fits := r.CanHold(inputCount, 41);
    if !fits {
      GuardIsSound(TakeInput, inputCount, r.Rest(), 41);
      return None;
    }
    var legacy := EncodeU32(version.value) + CompactSize(inputCount);
    var ok, inputs, withInputs := ReadInputs(r, inputCount, legacy);
    if !ok { return None; }
    var outputCount := r.CompactSizeAt();
    if outputCount.None? { return None; }
    fits := r.CanHold(outputCount.value, 9);
    if !fits {
      GuardIsSound(TakeOutput, outputCount.value, r.Rest(), 9);
      return None;
    }
    var okOut, outputs, withOutputs := ReadOutputs(r, outputCount.value, withInputs + CompactSize(outputCount.value));
    if !okOut { return None; }
    ok := SkipWitnesses(r, if segwit then inputCount else 0);
    if !ok { return None; }
    var lockTime := r.Uint32();
    if lockTime.None? { return None; }
    var preimage := withOutputs + EncodeU32(lockTime.value);
    ghost var t := Decode(raw).value;
    Rebuilt(EncodeU32(version.value), CompactSize(inputCount), Concat(EncodeInput, t.inputs),
            CompactSize(outputCount.value), Concat(EncodeTxOut, t.outputs), EncodeU32(lockTime.value));
    return Some(Decoded(sha(sha(preimage)), inputs, outputs));
  }

  /** Both forms of a transaction come back as its outpoints and outputs, in their order, under
      one txid, whatever the witnesses are and whatever follows. */
  method DecodeForms(t: Transaction, witnesses: seq<Witness>, after: Bytes, sha: Sha)
    returns (legacy: Decoded, segwit: Decoded)
    requires Canonical(t) && |witnesses| == |t.inputs|
    ensures legacy == segwit && legacy.txid == sha(sha(LegacyForm(t))) && legacy.outputs == t.outputs
    ensures |legacy.inputs| == |t.inputs|
    ensures forall i :: 0 <= i < |t.inputs| ==> legacy.inputs[i] == t.inputs[i].prev
  {
    hide LegacyForm, SegwitForm, Decode;
    LegacyDecodes(t, after);
    SegwitDecodes(t, witnesses, after);
    var l := DecodeTx(LegacyForm(t) + after, sha);
    var s := DecodeTx(SegwitForm(t, witnesses) + after, sha);
    legacy, segwit := l.value, s.value;
    assert legacy.inputs == segwit.inputs;
  }

  lemma Rebuilt(v: Bytes, n: Bytes, i: Bytes, m: Bytes, o: Bytes, l: Bytes)
    ensures v + n + i + m + o + l == v + ((n + (i + (m + o))) + l)
  {
    assert n + i + m + o == n + (i + (m + o));
    assert v + n + i + m + o == v + (n + i + m + o);
  }
}
