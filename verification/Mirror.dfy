/** The client's mirror of its watch-set, what a control message does to the set the node
    holds, and what an edit does to both. */
module Mirror {
  import opened ScriptTypes

  datatype Alarm = Alarm(txid: Hash32, depth: U32)
  datatype Window = Window(gapLimit: U32, start: U32)
  datatype Prefix = Prefix(bits: nat, prefix: Bytes)
  /** A scan-key target; its identity is the public scan key. */
  datatype Target = Target(id: Bytes, payload: Bytes)
  datatype ScriptWatch = ScriptWatch(hash: Hash32, floor: Option<U64>)

  /** A watch-set. F is how a value floor is held: optional in the client, and a plain number
      with 0 for none at the node. */
  datatype Watches<F> = Watches(
    scripts: map<Hash32, F>, outpoints: set<OutPoint>, lifecycles: map<Hash32, U32>, alarms: set<Alarm>,
    descriptors: map<string, Window>, prefixes: set<Prefix>, silent: map<Bytes, Target>,
    categories: Option<U32>, rawTx: Option<bool>)

  type MirrorSet = Watches<Option<U64>>
  type NodeSet = Watches<U64>

  const EMPTY: NodeSet := Watches(map[], {}, map[], {}, map[], {}, map[], None, None)

  function Floor(f: Option<U64>): U64 { if f.Some? then f.value else 0 }

  function Floors(m: map<Hash32, Option<U64>>): map<Hash32, U64> { map k | k in m :: Floor(m[k]) }

  const CATEGORY_TWEAKS: U32 := 8
  const ALL_CATEGORIES_DEFAULT: U32 := 0xFFFF_FFE7

  /** The mask that asking for these categories leaves: 0 stands for the default, and tweaks
      are never served on a watch. */
  function Served(categories: U32): U32 {
    var mask := if categories == 0 then ALL_CATEGORIES_DEFAULT else categories;
    if mask / CATEGORY_TWEAKS % 2 == 1 then mask - CATEGORY_TWEAKS else mask
  }

  function ServedOf(categories: Option<U32>): Option<U32> {
    if categories.Some? then Some(Served(categories.value)) else None
  }

  /** The mirror as a node would hold it that has these depths for its lifecycles. */
  function AtNode(m: MirrorSet, depths: map<Hash32, U32>): NodeSet {
    Watches(Floors(m.scripts), m.outpoints, depths, m.alarms,
            m.descriptors, m.prefixes, m.silent, ServedOf(m.categories), m.rawTx)
  }

  /** The mirror as a node would hold it. */
  function Normal(m: MirrorSet): NodeSet { AtNode(m, m.lifecycles) }

  // ---- Prefix buckets ------------------------------------------------------------------

  predicate ValidPrefix(p: Prefix) { 1 <= p.bits <= 32 && |p.prefix| == (p.bits + 7) / 8 }

  /** The number with its k lowest bits cleared. */
  function Clear(b: nat, k: nat): (r: nat)
    ensures r <= b
  {
    if k == 0 then b else 2 * Clear(b / 2, k - 1)
  }

  /** The bits past the prefix cleared. */
  function Mask(p: Prefix): (r: Prefix)
    requires ValidPrefix(p)
    ensures ValidPrefix(r)
  {
    if p.bits % 8 == 0 then p
    else var b: nat := Last(p.prefix); Prefix(p.bits, Pop(p.prefix) + [Clear(b, 8 - p.bits % 8)])
  }

  /** Masking where the pair is valid; an invalid one is kept for rendering to refuse. */
  function MaskSafe(p: Prefix): Prefix { if ValidPrefix(p) then Mask(p) else p }

  lemma {:induction false} ClearTwice(b: nat, k: nat)
    ensures Clear(Clear(b, k), k) == Clear(b, k)
    decreases k
  {
    if k > 0 {
      ClearTwice(b / 2, k - 1);
      assert Clear(b, k) / 2 == Clear(b / 2, k - 1);
    }
  }

  lemma MaskTwice(p: Prefix)
    requires ValidPrefix(p)
    ensures Mask(Mask(p)) == Mask(p)
  {
    hide Clear;
    if p.bits % 8 != 0 {
      ClearTwice(Last(p.prefix), 8 - p.bits % 8);
      MaskedBytes(p);
    }
  }

  lemma MaskedBytes(p: Prefix)
    requires ValidPrefix(p) && p.bits % 8 != 0
    ensures |Mask(p).prefix| == |p.prefix| && Mask(p).bits == p.bits
    ensures Pop(Mask(p).prefix) == Pop(p.prefix) && Last(Mask(p).prefix) == Clear(Last(p.prefix), 8 - p.bits % 8)
  {
    hide Clear;
  }

  function Half(b: nat, n: nat): nat { if n == 0 then b else Half(b / 2, n - 1) }

  /** Bit i of a string, the most significant of each byte first. */
  function BitAt(s: Bytes, i: nat): nat
    requires i / 8 < |s|
  {
    Half(s[i / 8], 7 - i % 8) % 2
  }

  lemma {:induction false} HalfOfClear(b: nat, k: nat, n: nat)
    ensures k <= n ==> Half(Clear(b, k), n) == Half(b, n)
    ensures n < k ==> Half(Clear(b, k), n) % 2 == 0
    decreases k
  {
    if k > 0 && n > 0 {
      HalfOfClear(b / 2, k - 1, n - 1);
      assert Clear(b, k) / 2 == Clear(b / 2, k - 1);
    }
  }

  /** Masking keeps the first bits of a prefix, as many as it says, and clears the rest. */
  lemma MaskBits(p: Prefix, i: nat)
    requires ValidPrefix(p) && i < 8 * |p.prefix|
    ensures |Mask(p).prefix| == |p.prefix| && Mask(p).bits == p.bits
    ensures BitAt(Mask(p).prefix, i) == if i < p.bits then BitAt(p.prefix, i) else 0
  {
    hide Half, Clear;
    if p.bits % 8 != 0 {
      HalfOfClear(Last(p.prefix), 8 - p.bits % 8, 7 - i % 8);
      MaskedBytes(p);
    }
  }

  // ---- Control messages and what they mean ---------------------------------------------

  datatype Control =
    | SetCategories(categories: U32)
    | SetWatchOptions(rawTx: bool)
    | SetCursor
    | AddScripts(scripts: seq<Hash32>, minValues: seq<U64>)
    | RemoveScripts(scripts: seq<Hash32>)
    | AddOutpoints(outpoints: seq<OutPoint>)
    | RemoveOutpoints(outpoints: seq<OutPoint>)
    | AddTransactions(txids: seq<Hash32>, minDepths: seq<U32>, autoClose: U32)
    | RemoveTransactions(txids: seq<Hash32>, minDepths: seq<U32>)
    | AddDescriptor(descriptor: string, window: Window)
    | RemoveDescriptor(descriptor: string)
    | AddScriptPrefixes(prefixes: seq<Prefix>)
    | RemoveScriptPrefixes(prefixes: seq<Prefix>)
    | AddSilentPayments(targets: seq<Target>)
    | RemoveSilentPayments(ids: seq<Bytes>)

  function SetOf<T>(s: seq<T>): set<T> { set x | x in s }

  /** Put pairs one after the other: a later one wins. */
  function PutAll<K, V>(m: map<K, V>, ks: seq<K>, vs: seq<V>): map<K, V>
    requires |ks| == |vs|
  {
    if ks == [] then m else PutAll(m, Pop(ks), Pop(vs))[Last(ks) := Last(vs)]
  }

  function Repeat<T>(x: T, n: nat): (r: seq<T>)
    ensures |r| == n && forall i :: 0 <= i < n ==> r[i] == x
  {
    if n == 0 then [] else Repeat(x, n - 1) + [x]
  }

  /** The same depth for every transaction of a list. */
  function AllAt(ts: seq<Hash32>, depth: U32): map<Hash32, U32> { map t | t in ts :: depth }

  function Ids(ts: seq<Target>): (r: seq<Bytes>)
    ensures |r| == |ts| && forall i :: 0 <= i < |ts| ==> r[i] == ts[i].id
  {
    if ts == [] then [] else Ids(Pop(ts)) + [Last(ts).id]
  }

  function ValidDepths(ds: seq<U32>): (r: seq<U32>)
    ensures forall d :: d in r <==> d in ds && d >= 1
  {
    if ds == [] then [] else if Last(ds) >= 1 then ValidDepths(Pop(ds)) + [Last(ds)] else ValidDepths(Pop(ds))
  }

  function Product(ts: seq<Hash32>, ds: seq<U32>): set<Alarm> { set t, d | t in ts && d in ds :: Alarm(t, d) }

  /** One message on the node's set. A transaction message is about lifecycles when it has no
      depth of at least 1, else about alarms; floors must be none or one per script. A
      lifecycle is registered once: a message for a held transaction leaves its auto-close
      depth as it is. */
  function Apply(w: NodeSet, c: Control): NodeSet {
    match c
    case SetCategories(x) => w.(categories := Some(Served(x)))
    case SetWatchOptions(x) => w.(rawTx := Some(x))
    case SetCursor => w
    case AddScripts(ks, vs) =>
      if vs == [] then w.(scripts := PutAll(w.scripts, ks, Repeat(0, |ks|)))
      else if |vs| != |ks| then w
      else w.(scripts := PutAll(w.scripts, ks, vs))
    case RemoveScripts(ks) => w.(scripts := w.scripts - SetOf(ks))
    case AddOutpoints(os) => w.(outpoints := w.outpoints + SetOf(os))
    case RemoveOutpoints(os) => w.(outpoints := w.outpoints - SetOf(os))
    case AddTransactions(ts, ds, close) =>
      if ValidDepths(ds) == [] then w.(lifecycles := AllAt(ts, close) + w.lifecycles)
      else w.(alarms := w.alarms + Product(ts, ValidDepths(ds)))
    case RemoveTransactions(ts, ds) =>
      if ValidDepths(ds) == [] then w.(lifecycles := w.lifecycles - SetOf(ts))
      else w.(alarms := w.alarms - Product(ts, ValidDepths(ds)))
    case AddDescriptor(d, win) => w.(descriptors := w.descriptors[d := win])
    case RemoveDescriptor(d) => w.(descriptors := w.descriptors - {d})
    case AddScriptPrefixes(ps) => w.(prefixes := w.prefixes + SetOf(ps))
    case RemoveScriptPrefixes(ps) => w.(prefixes := w.prefixes - SetOf(ps))
    case AddSilentPayments(ts) => w.(silent := PutAll(w.silent, Ids(ts), ts))
    case RemoveSilentPayments(is_) => w.(silent := w.silent - SetOf(is_))
  }

  function Fold(cs: seq<Control>, w: NodeSet): NodeSet {
    if cs == [] then w else Apply(Fold(Pop(cs), w), Last(cs))
  }

  lemma FoldNext(cs: seq<Control>, c: Control, w: NodeSet)
    ensures Fold(cs + [c], w) == Apply(Fold(cs, w), c)
  {
    assert Pop(cs + [c]) == cs;
  }

  lemma {:induction false} FoldAppend(a: seq<Control>, b: seq<Control>, w: NodeSet)
    ensures Fold(a + b, w) == Fold(b, Fold(a, w))
  {
    if b == [] {
      assert a + b == a;
    } else {
      FoldAppend(a, Pop(b), w);
      assert Pop(a + b) == a + Pop(b);
    }
  }

  /** Putting values read off f is overwriting with f there. */
  lemma {:induction false} PutAllFrom<K, V>(m: map<K, V>, ks: seq<K>, vs: seq<V>, f: map<K, V>)
    requires |ks| == |vs| && forall i :: 0 <= i < |ks| ==> ks[i] in f && vs[i] == f[ks[i]]
    ensures PutAll(m, ks, vs) == m + (map k | k in f && k in ks :: f[k])
  {
    if ks != [] {
      PutAllFrom(m, Pop(ks), Pop(vs), f);
      assert forall k :: k in ks <==> k in Pop(ks) || k == Last(ks);
    }
  }

  // ---- Edits ---------------------------------------------------------------------------

  datatype Edit =
    | WatchScripts(items: seq<ScriptWatch>) | DropScripts(hashes: seq<Hash32>)
    | WatchOutpoints(outpoints: seq<OutPoint>) | DropOutpoints(outpoints: seq<OutPoint>)
    | WatchLifecycles(autoClose: U32, txids: seq<Hash32>) | DropLifecycles(txids: seq<Hash32>)
    | ArmAlarms(txids: seq<Hash32>, depths: seq<U32>) | DisarmAlarms(txids: seq<Hash32>, depths: seq<U32>)
    | WatchDescriptor(descriptor: string, window: Window) | DropDescriptor(descriptor: string)
    | WatchPrefixes(prefixes: seq<Prefix>) | DropPrefixes(prefixes: seq<Prefix>)
    | WatchSilent(targets: seq<Target>) | DropSilent(ids: seq<Bytes>)
    | Categories(categories: U32) | RawTx(rawTx: bool)

  const MAX_SP_TARGETS := 16

  function HashesOf(items: seq<ScriptWatch>): (r: seq<Hash32>)
    ensures |r| == |items|
  {
    if items == [] then [] else HashesOf(Pop(items)) + [Last(items).hash]
  }

  function FloorsOf(items: seq<ScriptWatch>): (r: seq<Option<U64>>)
    ensures |r| == |items|
  {
    if items == [] then [] else FloorsOf(Pop(items)) + [Last(items).floor]
  }

  function Values(fs: seq<Option<U64>>): (r: seq<U64>)
    ensures |r| == |fs|
  {
    if fs == [] then [] else Values(Pop(fs)) + [Floor(Last(fs))]
  }

  predicate AnyFloored(fs: seq<Option<U64>>) { exists i :: 0 <= i < |fs| && fs[i].Some? }

  predicate AllValid(ps: seq<Prefix>) { forall i :: 0 <= i < |ps| ==> ValidPrefix(ps[i]) }

  function Masked(ps: seq<Prefix>): (r: seq<Prefix>)
    requires AllValid(ps)
    ensures |r| == |ps| && forall p :: p in r ==> ValidPrefix(p) && Mask(p) == p
  {
    if ps == [] then [] else MaskTwice(Last(ps)); Masked(Pop(ps)) + [Mask(Last(ps))]
  }

  /** Entries of the batch whose identity is not held yet, repeats counted each time. */
  function NewTargets(m: map<Bytes, Target>, ts: seq<Target>): nat {
    if ts == [] then 0 else NewTargets(m, Pop(ts)) + if Last(ts).id in m then 0 else 1
  }

  /** What an edit does to the mirror; None when it is refused and changes nothing. */
  function Mutate(m: MirrorSet, e: Edit): Option<MirrorSet> {
    match e
    case WatchScripts(items) => Some(m.(scripts := PutAll(m.scripts, HashesOf(items), FloorsOf(items))))
    case DropScripts(hs) => Some(m.(scripts := m.scripts - SetOf(hs)))
    case WatchOutpoints(os) => Some(m.(outpoints := m.outpoints + SetOf(os)))
    case DropOutpoints(os) => Some(m.(outpoints := m.outpoints - SetOf(os)))
    case WatchLifecycles(close, ts) => Some(m.(lifecycles := m.lifecycles + AllAt(ts, close)))
    case DropLifecycles(ts) => Some(m.(lifecycles := m.lifecycles - SetOf(ts)))
    case ArmAlarms(ts, ds) => Some(m.(alarms := m.alarms + Product(ts, ValidDepths(ds))))
    case DisarmAlarms(ts, ds) => Some(m.(alarms := m.alarms - Product(ts, ValidDepths(ds))))
    case WatchDescriptor(d, win) => Some(m.(descriptors := m.descriptors[d := win]))
    case DropDescriptor(d) => Some(m.(descriptors := m.descriptors - {d}))
    case WatchPrefixes(ps) => if AllValid(ps) then Some(m.(prefixes := m.prefixes + SetOf(Masked(ps)))) else None
    case DropPrefixes(ps) => if AllValid(ps) then Some(m.(prefixes := m.prefixes - SetOf(Masked(ps)))) else None
    case WatchSilent(ts) =>
      if |m.silent| + NewTargets(m.silent, ts) > MAX_SP_TARGETS then None
      else Some(m.(silent := PutAll(m.silent, Ids(ts), ts)))
    case DropSilent(ids) => Some(m.(silent := m.silent - SetOf(ids)))
    case Categories(c) => Some(m.(categories := Some(c)))
    case RawTx(r) => Some(m.(rawTx := Some(r)))
  }

  /** What a live edit sends: nothing for an empty batch or an invalid prefix, and never a depth list that has
      become empty, which would be about lifecycles. */
  function Sends(e: Edit): seq<Control> {
    match e
    case WatchScripts(items) =>
      if items == [] then []
      else [AddScripts(HashesOf(items), if AnyFloored(FloorsOf(items)) then Values(FloorsOf(items)) else [])]
    case DropScripts(hs) => if hs == [] then [] else [RemoveScripts(hs)]
    case WatchOutpoints(os) => if os == [] then [] else [AddOutpoints(os)]
    case DropOutpoints(os) => if os == [] then [] else [RemoveOutpoints(os)]
    case WatchLifecycles(close, ts) => if ts == [] then [] else [AddTransactions(ts, [], close)]
    case DropLifecycles(ts) => if ts == [] then [] else [RemoveTransactions(ts, [])]
    case ArmAlarms(ts, ds) =>
      if ts == [] || ValidDepths(ds) == [] then [] else [AddTransactions(ts, ValidDepths(ds), 0)]
    case DisarmAlarms(ts, ds) =>
      if ts == [] || ValidDepths(ds) == [] then [] else [RemoveTransactions(ts, ValidDepths(ds))]
    case WatchDescriptor(d, win) => [AddDescriptor(d, win)]
    case DropDescriptor(d) => [RemoveDescriptor(d)]
    case WatchPrefixes(ps) => if ps == [] || !AllValid(ps) then [] else [AddScriptPrefixes(Masked(ps))]
    case DropPrefixes(ps) => if ps == [] || !AllValid(ps) then [] else [RemoveScriptPrefixes(Masked(ps))]
    case WatchSilent(ts) => if ts == [] then [] else [AddSilentPayments(ts)]
    case DropSilent(ids) => if ids == [] then [] else [RemoveSilentPayments(ids)]
    case Categories(c) => [SetCategories(c)]
    case RawTx(r) => [SetWatchOptions(r)]
  }

  lemma {:induction false} FloorsPut(m: map<Hash32, Option<U64>>, ks: seq<Hash32>, fs: seq<Option<U64>>)
    requires |ks| == |fs|
    ensures Floors(PutAll(m, ks, fs)) == PutAll(Floors(m), ks, Values(fs))
  {
    if ks != [] { FloorsPut(m, Pop(ks), Pop(fs)); }
  }

  lemma Unfloored(fs: seq<Option<U64>>)
    requires !AnyFloored(fs)
    ensures Values(fs) == Repeat(0, |fs|)
  {
    if fs != [] {
      assert forall i :: 0 <= i < |Pop(fs)| ==> Pop(fs)[i] == fs[i];
      Unfloored(Pop(fs));
    }
  }

  lemma DepthsTwice(ds: seq<U32>)
    ensures ValidDepths(ValidDepths(ds)) == ValidDepths(ds)
  {
    if ds != [] && Last(ds) >= 1 {
      var v := ValidDepths(Pop(ds)) + [Last(ds)];
      assert Pop(v) == ValidDepths(Pop(ds));
    }
  }

  lemma FoldOne(c: Control, w: NodeSet)
    ensures Fold([c], w) == Apply(w, c) && Fold([], w) == w
  {
    assert Pop([c]) == [];
  }

  // ---- What an edit leaves at the node -------------------------------------------------

  /** The depths at the node after an edit is sent: those of held lifecycles stay. */
  function DepthsAfter(held: map<Hash32, U32>, e: Edit): map<Hash32, U32> {
    match e
    case WatchLifecycles(close, ts) => AllAt(ts, close) + held
    case DropLifecycles(ts) => held - SetOf(ts)
    case _ => held
  }

  /** What the edit sends takes the node from the mirror before to the mirror after, but for
      the depths of lifecycles. */
  predicate Follows(m: MirrorSet, depths: map<Hash32, U32>, e: Edit)
    requires Mutate(m, e).Some?
  {
    Fold(Sends(e), AtNode(m, depths)) == AtNode(Mutate(m, e).value, DepthsAfter(depths, e))
  }

  lemma LifecyclesFollow(m: MirrorSet, depths: map<Hash32, U32>, close: U32, ts: seq<Hash32>)
    ensures Follows(m, depths, WatchLifecycles(close, ts))
  {
    hide ValidDepths, Fold, Floors, AllAt, SetOf;
    NoDepths();
    FoldOne(AddTransactions(ts, [], close), AtNode(m, depths));
    if ts == [] { NoTransactions(ts, close, depths); }
  }

  lemma LifecyclesDropped(m: MirrorSet, depths: map<Hash32, U32>, ts: seq<Hash32>)
    ensures Follows(m, depths, DropLifecycles(ts))
  {
    hide ValidDepths, Fold, Floors, AllAt, SetOf;
    NoDepths();
    FoldOne(RemoveTransactions(ts, []), AtNode(m, depths));
    if ts == [] { NoTransactions(ts, 0, depths); }
  }

  lemma NoTransactions(ts: seq<Hash32>, close: U32, depths: map<Hash32, U32>)
    requires ts == []
    ensures AllAt(ts, close) + depths == depths && depths - SetOf(ts) == depths
  {
  }

  lemma NoDepths()
    ensures ValidDepths([]) == []
  {
  }

  lemma AlarmsFollow(m: MirrorSet, depths: map<Hash32, U32>, ts: seq<Hash32>, ds: seq<U32>)
    ensures Follows(m, depths, ArmAlarms(ts, ds))
  {
    hide ValidDepths, Fold, Floors, Product;
    var valid := ValidDepths(ds);
    FoldOne(AddTransactions(ts, valid, 0), AtNode(m, depths));
    DepthsTwice(ds);
    if ts == [] || valid == [] { NoProduct(m.alarms, ts, valid); }
  }

  lemma AlarmsDisarmed(m: MirrorSet, depths: map<Hash32, U32>, ts: seq<Hash32>, ds: seq<U32>)
    ensures Follows(m, depths, DisarmAlarms(ts, ds))
  {
    hide ValidDepths, Fold, Floors, Product;
    var valid := ValidDepths(ds);
    FoldOne(RemoveTransactions(ts, valid), AtNode(m, depths));
    DepthsTwice(ds);
    if ts == [] || valid == [] { NoProduct(m.alarms, ts, valid); }
  }

  lemma NoProduct(alarms: set<Alarm>, ts: seq<Hash32>, ds: seq<U32>)
    requires ts == [] || ds == []
    ensures alarms + Product(ts, ds) == alarms && alarms - Product(ts, ds) == alarms
  {
  }

  lemma NoMembers<T>(s: seq<T>, x: set<T>)
    requires s == []
    ensures x + SetOf(s) == x && x - SetOf(s) == x
  {
  }

  lemma PrefixesFollow(m: MirrorSet, depths: map<Hash32, U32>, ps: seq<Prefix>)
    requires AllValid(ps)
    ensures Follows(m, depths, WatchPrefixes(ps))
  {
    hide Fold, Masked, Floors, SetOf;
    FoldOne(AddScriptPrefixes(Masked(ps)), AtNode(m, depths));
    if ps == [] { NoMembers(Masked(ps), m.prefixes); }
  }

  lemma PrefixesDropped(m: MirrorSet, depths: map<Hash32, U32>, ps: seq<Prefix>)
    requires AllValid(ps)
    ensures Follows(m, depths, DropPrefixes(ps))
  {
    hide Fold, Masked, Floors, SetOf;
    FoldOne(RemoveScriptPrefixes(Masked(ps)), AtNode(m, depths));
    if ps == [] { NoMembers(Masked(ps), m.prefixes); }
  }

  lemma WatchSilentFollows(m: MirrorSet, depths: map<Hash32, U32>, ts: seq<Target>)
    requires Mutate(m, WatchSilent(ts)).Some?
    ensures Follows(m, depths, WatchSilent(ts))
  {
    hide PutAll, Fold, Floors, NewTargets;
    FoldOne(AddSilentPayments(ts), AtNode(m, depths));
    if ts == [] { PutNothing(m.silent, Ids(ts), ts); }
  }

  lemma DropSilentFollows(m: MirrorSet, depths: map<Hash32, U32>, ids: seq<Bytes>)
    ensures Follows(m, depths, DropSilent(ids))
  {
    hide Fold, Floors, SetOf;
    FoldOne(RemoveSilentPayments(ids), AtNode(m, depths));
    if ids == [] { NoKeys(m.silent, ids); }
  }

  lemma NoKeys<K, V>(m: map<K, V>, ks: seq<K>)
    requires ks == []
    ensures m - SetOf(ks) == m
  {
  }

  lemma DropScriptsFollows(m: MirrorSet, depths: map<Hash32, U32>, hs: seq<Hash32>)
    ensures Follows(m, depths, DropScripts(hs))
  {
    hide Fold, Floors, SetOf;
    FoldOne(RemoveScripts(hs), AtNode(m, depths));
    FloorsDrop(m.scripts, SetOf(hs));
    if hs == [] { NoKeys(m.scripts, hs); }
  }

  lemma FloorsDrop(m: map<Hash32, Option<U64>>, ks: set<Hash32>)
    ensures Floors(m - ks) == Floors(m) - ks
    ensures ks == {} ==> m - ks == m
  {
  }

  lemma OutpointsFollow(m: MirrorSet, depths: map<Hash32, U32>, os: seq<OutPoint>)
    ensures Follows(m, depths, WatchOutpoints(os)) && Follows(m, depths, DropOutpoints(os))
  {
    hide Fold, Floors, SetOf;
    var n := AtNode(m, depths);
    FoldOne(AddOutpoints(os), n);
    FoldOne(RemoveOutpoints(os), n);
    if os == [] { NoMembers(os, m.outpoints); }
  }

  lemma ScriptsFollow(m: MirrorSet, depths: map<Hash32, U32>, items: seq<ScriptWatch>)
    ensures Follows(m, depths, WatchScripts(items))
  {
    hide PutAll, Values, Repeat, Fold, HashesOf, FloorsOf, Floors;
    var ks, fs := HashesOf(items), FloorsOf(items);
    FloorsPut(m.scripts, ks, fs);
    FoldOne(AddScripts(ks, if AnyFloored(fs) then Values(fs) else []), AtNode(m, depths));
    if items == [] {
      PutNothing(m.scripts, ks, fs);
    } else if !AnyFloored(fs) {
      Unfloored(fs);
    }
  }

  lemma PutNothing<K, V>(m: map<K, V>, ks: seq<K>, vs: seq<V>)
    requires ks == [] && vs == []
    ensures PutAll(m, ks, vs) == m
  {
  }

  lemma SettingsFollow(m: MirrorSet, depths: map<Hash32, U32>, e: Edit)
    requires e.WatchDescriptor? || e.DropDescriptor? || e.Categories? || e.RawTx?
    ensures Follows(m, depths, e)
  {
    hide Fold, Floors, SetOf;
    FoldOne(Sends(e)[0], AtNode(m, depths));
  }

  /** After every edit that is sent, the node holds what the mirror holds but for lifecycle
      depths, and of those it keeps the ones it had. */
  lemma EditFollows(m: MirrorSet, depths: map<Hash32, U32>, e: Edit)
    requires Mutate(m, e).Some?
    ensures Follows(m, depths, e)
  {
    hide Follows, Mutate;
    match e
    case WatchLifecycles(close, ts) => LifecyclesFollow(m, depths, close, ts);
    case DropLifecycles(ts) => LifecyclesDropped(m, depths, ts);
    case ArmAlarms(ts, ds) => AlarmsFollow(m, depths, ts, ds);
    case DisarmAlarms(ts, ds) => AlarmsDisarmed(m, depths, ts, ds);
    case WatchScripts(items) => ScriptsFollow(m, depths, items);
    case DropScripts(hs) => DropScriptsFollows(m, depths, hs);
    case WatchOutpoints(os) => OutpointsFollow(m, depths, os);
    case DropOutpoints(os) => OutpointsFollow(m, depths, os);
    case WatchSilent(ts) => WatchSilentFollows(m, depths, ts);
    case DropSilent(ids) => DropSilentFollows(m, depths, ids);
    case WatchPrefixes(ps) =>
      PrefixesChecked(m, e);
      PrefixesFollow(m, depths, ps);
    case DropPrefixes(ps) =>
      PrefixesChecked(m, e);
      PrefixesDropped(m, depths, ps);
    case _ => SettingsFollow(m, depths, e);
  }

  lemma PrefixesChecked(m: MirrorSet, e: Edit)
    requires (e.WatchPrefixes? || e.DropPrefixes?) && Mutate(m, e).Some?
    ensures AllValid(e.prefixes)
  {
  }

  /** Whether an edit leaves the auto-close depths of held lifecycles as they are. */
  predicate KeepsDepths(held: map<Hash32, U32>, e: Edit) {
    e.WatchLifecycles? ==> forall t :: t in e.txids && t in held ==> held[t] == e.autoClose
  }

  /** What an edit sends does to a node that holds the mirror what the edit does to the
      mirror, exactly when it keeps the depths of held lifecycles. */
  lemma EditAgreesIff(m: MirrorSet, e: Edit)
    requires Mutate(m, e).Some?
    ensures Fold(Sends(e), Normal(m)) == Normal(Mutate(m, e).value) <==> KeepsDepths(m.lifecycles, e)
  {
    hide Fold, Sends, Floors, Mutate, DepthsAfter, KeepsDepths;
    EditFollows(m, m.lifecycles, e);
    DepthsAgreeIff(m, e);
  }

  lemma DepthsAgreeIff(m: MirrorSet, e: Edit)
    requires Mutate(m, e).Some?
    ensures DepthsAfter(m.lifecycles, e) == Mutate(m, e).value.lifecycles <==> KeepsDepths(m.lifecycles, e)
  {
    if e.WatchLifecycles? { UnionsAgreeIff(m.lifecycles, e.txids, e.autoClose); }
  }

  lemma UnionsAgreeIff(held: map<Hash32, U32>, ts: seq<Hash32>, close: U32)
    ensures AllAt(ts, close) + held == held + AllAt(ts, close) <==>
            forall t :: t in ts && t in held ==> held[t] == close
  {
    var first, last := AllAt(ts, close) + held, held + AllAt(ts, close);
    if t :| t in ts && t in held && held[t] != close {
      assert first[t] != last[t];
    } else {
      assert first == last;
    }
  }

  /** An edit sends one message, or none: when the batch is empty, when no valid depth is
      left, when a prefix is invalid. */
  lemma SendsAtMostOne(e: Edit)
    ensures |Sends(e)| <= 1
    ensures Sends(e) == [] <==>
            match e
            case WatchScripts(items) => items == []
            case DropScripts(hs) => hs == []
            case WatchOutpoints(os) => os == []
            case DropOutpoints(os) => os == []
            case WatchLifecycles(_, ts) => ts == []
            case DropLifecycles(ts) => ts == []
            case ArmAlarms(ts, ds) => ts == [] || forall d :: d in ds ==> d < 1
            case DisarmAlarms(ts, ds) => ts == [] || forall d :: d in ds ==> d < 1
            case WatchPrefixes(ps) => ps == [] || exists i :: 0 <= i < |ps| && !ValidPrefix(ps[i])
            case DropPrefixes(ps) => ps == [] || exists i :: 0 <= i < |ps| && !ValidPrefix(ps[i])
            case WatchSilent(ts) => ts == []
            case DropSilent(ids) => ids == []
            case _ => false
  {
    hide ValidPrefix, Masked, HashesOf, FloorsOf, Values, ValidDepths;
    match e
    case ArmAlarms(_, ds) => NoneValid(ds);
    case DisarmAlarms(_, ds) => NoneValid(ds);
    case _ =>
  }

  lemma NoneValid(ds: seq<U32>)
    ensures ValidDepths(ds) == [] <==> forall d :: d in ds ==> d < 1
  {
    var v := ValidDepths(ds);
    if v != [] { assert v[0] in v; }
  }

  // ---- What is watched after an edit ---------------------------------------------------

  lemma {:induction false} PutAllKeys<K, V>(m: map<K, V>, ks: seq<K>, vs: seq<V>, k: K)
    requires |ks| == |vs|
    ensures k in PutAll(m, ks, vs) <==> k in m || k in ks
    ensures k !in ks && k in m ==> PutAll(m, ks, vs)[k] == m[k]
  {
    if ks != [] {
      PutAllKeys(m, Pop(ks), Pop(vs), k);
      assert k in ks <==> k in Pop(ks) || k == Last(ks);
    }
  }

  lemma {:induction false} PutAllLast<K, V>(m: map<K, V>, ks: seq<K>, vs: seq<V>, i: nat)
    requires i < |ks| == |vs| && ks[i] !in ks[i + 1..]
    ensures ks[i] in PutAll(m, ks, vs) && PutAll(m, ks, vs)[ks[i]] == vs[i]
  {
    if i < |ks| - 1 {
      assert ks[i + 1..][|ks| - i - 2] == Last(ks);
      var a, b := Pop(ks)[i + 1..], ks[i + 1..];
      assert a == b[..|b| - 1];
      PutAllLast(m, Pop(ks), Pop(vs), i);
    }
  }

  /** After any edit: a script is watched if the edit named it, or if it was before and the
      edit does not drop it; its floor is the last one named, or else the one before. */
  lemma ScriptsAfter(m: MirrorSet, e: Edit, h: Hash32)
    requires Mutate(m, e).Some?
    ensures var n := Mutate(m, e).value.scripts;
            && (h in n <==> (e.WatchScripts? && h in HashesOf(e.items)) ||
                            (h in m.scripts && !(e.DropScripts? && h in e.hashes)))
            && (h in n && !(e.WatchScripts? && h in HashesOf(e.items)) ==> n[h] == m.scripts[h])
            && (e.WatchScripts? ==>
                  forall i :: 0 <= i < |e.items| && e.items[i].hash == h && h !in HashesOf(e.items)[i + 1..] ==>
                                h in n && n[h] == e.items[i].floor)
  {
    hide PutAll, Masked, NewTargets, Ids, ValidDepths, Product, AllAt, HashesOf, FloorsOf, AllValid;
    if e.WatchScripts? {
      PutAllKeys(m.scripts, HashesOf(e.items), FloorsOf(e.items), h);
      forall i | 0 <= i < |e.items| && e.items[i].hash == h && h !in HashesOf(e.items)[i + 1..]
        ensures h in Mutate(m, e).value.scripts && Mutate(m, e).value.scripts[h] == e.items[i].floor
      {
        ItemAt(e.items, i);
        PutAllLast(m.scripts, HashesOf(e.items), FloorsOf(e.items), i);
      }
    }
  }

  lemma {:induction false} ItemAt(items: seq<ScriptWatch>, i: nat)
    requires i < |items|
    ensures HashesOf(items)[i] == items[i].hash && FloorsOf(items)[i] == items[i].floor
  {
    if i < |items| - 1 { ItemAt(Pop(items), i); }
  }

  lemma OutpointsAfter(m: MirrorSet, e: Edit, o: OutPoint)
    requires Mutate(m, e).Some?
    ensures o in Mutate(m, e).value.outpoints <==>
            || (e.WatchOutpoints? && o in e.outpoints)
            || (o in m.outpoints && !(e.DropOutpoints? && o in e.outpoints))
  {
    hide PutAll, Masked, NewTargets, Ids, ValidDepths, Product, AllAt, HashesOf, FloorsOf, AllValid;
  }

  /** An alarm stands for one transaction at one depth; a depth of zero is none. */
  lemma AlarmsAfter(m: MirrorSet, e: Edit, t: Hash32, d: U32)
    requires Mutate(m, e).Some?
    ensures Alarm(t, d) in Mutate(m, e).value.alarms <==>
            || (e.ArmAlarms? && t in e.txids && d in e.depths && d >= 1)
            || (Alarm(t, d) in m.alarms && !(e.DisarmAlarms? && t in e.txids && d in e.depths && d >= 1))
  {
    hide PutAll, Masked, NewTargets, Ids, AllAt, HashesOf, FloorsOf, AllValid, ValidDepths;
  }

  lemma LifecyclesAfter(m: MirrorSet, e: Edit, t: Hash32)
    requires Mutate(m, e).Some?
    ensures var n, asked := Mutate(m, e).value.lifecycles, e.WatchLifecycles? && t in e.txids;
            && (t in n <==> asked || (t in m.lifecycles && !(e.DropLifecycles? && t in e.txids)))
            && (t in n ==> n[t] == if asked then e.autoClose else m.lifecycles[t])
  {
    hide PutAll, Masked, NewTargets, Ids, ValidDepths, Product, HashesOf, FloorsOf, AllValid;
  }

  lemma DescriptorsAfter(m: MirrorSet, e: Edit, d: string)
    requires Mutate(m, e).Some?
    ensures var n, asked := Mutate(m, e).value.descriptors, e.WatchDescriptor? && d == e.descriptor;
            && (d in n <==> asked || (d in m.descriptors && !(e.DropDescriptor? && d == e.descriptor)))
            && (d in n ==> n[d] == if asked then e.window else m.descriptors[d])
  {
    hide PutAll, Masked, NewTargets, Ids, ValidDepths, Product, AllAt, HashesOf, FloorsOf, AllValid;
  }

  /** Buckets go by their masked bits; a batch with an invalid pair is refused as a whole. */
  lemma PrefixesAfter(m: MirrorSet, e: Edit, p: Prefix)
    ensures e.WatchPrefixes? || e.DropPrefixes? ==>
              (Mutate(m, e).Some? <==> forall i :: 0 <= i < |e.prefixes| ==> ValidPrefix(e.prefixes[i]))
    ensures Mutate(m, e).Some? ==>
              (p in Mutate(m, e).value.prefixes <==>
               || (e.WatchPrefixes? && exists q :: q in e.prefixes && ValidPrefix(q) && Mask(q) == p)
               || (p in m.prefixes &&
                   !(e.DropPrefixes? && exists q :: q in e.prefixes && ValidPrefix(q) && Mask(q) == p)))
  {
    hide PutAll, Mask, ValidPrefix, NewTargets, Ids, ValidDepths, Product, AllAt, HashesOf, FloorsOf, Masked;
    if (e.WatchPrefixes? || e.DropPrefixes?) && AllValid(e.prefixes) { MaskedMembers(e.prefixes, p); }
  }

  lemma {:induction false} MaskedMembers(ps: seq<Prefix>, p: Prefix)
    requires AllValid(ps)
    ensures p in Masked(ps) <==> exists q :: q in ps && ValidPrefix(q) && Mask(q) == p
  {
    hide Mask, ValidPrefix;
    if ps != [] {
      MaskedMembers(Pop(ps), p);
      assert ps[|ps| - 1] == Last(ps);
      assert forall q :: q in ps <==> q in Pop(ps) || q == Last(ps);
    }
  }

  /** A batch of targets is refused as a whole when it could pass 16 of them. */
  lemma TargetsAfter(m: MirrorSet, e: Edit, id: Bytes)
    ensures e.WatchSilent? ==> (Mutate(m, e).Some? <==> |m.silent| + NewTargets(m.silent, e.targets) <= 16)
    ensures Mutate(m, e).Some? ==>
              var n := Mutate(m, e).value.silent;
              && (id in n <==> (e.WatchSilent? && id in Ids(e.targets)) ||
                               (id in m.silent && !(e.DropSilent? && id in e.ids)))
              && (id in n && !(e.WatchSilent? && id in Ids(e.targets)) ==> n[id] == m.silent[id])
              && (e.WatchSilent? ==>
                    forall i :: 0 <= i < |e.targets| && e.targets[i].id == id && id !in Ids(e.targets)[i + 1..] ==>
                                  id in n && n[id] == e.targets[i])
  {
    hide PutAll, Masked, NewTargets, ValidDepths, Product, AllAt, HashesOf, FloorsOf, AllValid;
    if e.WatchSilent? && Mutate(m, e).Some? {
      PutAllKeys(m.silent, Ids(e.targets), e.targets, id);
      forall i | 0 <= i < |e.targets| && e.targets[i].id == id && id !in Ids(e.targets)[i + 1..]
        ensures id in Mutate(m, e).value.silent && Mutate(m, e).value.silent[id] == e.targets[i]
      {
        PutAllLast(m.silent, Ids(e.targets), e.targets, i);
      }
    }
  }

  lemma SettingsAfter(m: MirrorSet, e: Edit)
    requires Mutate(m, e).Some?
    ensures Mutate(m, e).value.categories == if e.Categories? then Some(e.categories) else m.categories
    ensures Mutate(m, e).value.rawTx == if e.RawTx? then Some(e.rawTx) else m.rawTx
  {
    hide PutAll, Masked, NewTargets, Ids, ValidDepths, Product, AllAt, HashesOf, FloorsOf, AllValid;
  }
}
