/** The messages that rebuild the mirror on a fresh stream, and that they do. */
module Render {
  import opened ScriptTypes
  import opened Order
  import opened DepthKey
  import opened Mirror

  // ---- Keys in the order they are sent -------------------------------------------------

  function RankPrefix(p: Prefix): seq<nat> { [p.bits] + p.prefix }

  lemma PrefixRanks()
    ensures Distinguishes(RankPrefix)
  {
    forall a, b | RankPrefix(a) == RankPrefix(b) ensures a == b {
      assert RankPrefix(a)[0] == a.bits && RankPrefix(a)[1..] == a.prefix;
      assert RankPrefix(b)[0] == b.bits && RankPrefix(b)[1..] == b.prefix;
    }
  }

  ghost function Hashes(s: set<Hash32>): (r: seq<Hash32>)
    ensures Lists(r, s) && Sorted(r, RankHash)
  {
    RanksDistinguish();
    SortedOf(s, RankHash)
  }

  ghost function Numbers(s: set<U32>): (r: seq<U32>)
    ensures Lists(r, s) && Sorted(r, RankNumber)
  {
    RanksDistinguish();
    SortedOf(s, RankNumber)
  }

  ghost function Texts(s: set<string>): (r: seq<string>)
    ensures Lists(r, s) && Sorted(r, RankText)
  {
    RanksDistinguish();
    SortedOf(s, RankText)
  }

  ghost function Points(s: set<OutPoint>): (r: seq<OutPoint>)
    ensures Lists(r, s) && Sorted(r, RankOutPoint)
  {
    RanksDistinguish();
    SortedOf(s, RankOutPoint)
  }

  ghost function Identities(s: set<Bytes>): (r: seq<Bytes>)
    ensures Lists(r, s) && Sorted(r, RankBytes)
  {
    RanksDistinguish();
    SortedOf(s, RankBytes)
  }

  ghost function Buckets(s: set<Prefix>): (r: seq<Prefix>)
    ensures Lists(r, s) && Sorted(r, RankPrefix)
  {
    PrefixRanks();
    SortedOf(s, RankPrefix)
  }

  // ---- The messages --------------------------------------------------------------------

  function OptionMsgs(m: MirrorSet): seq<Control> {
    (if m.categories.Some? then [SetCategories(m.categories.value)] else []) +
    (if m.rawTx.Some? then [SetWatchOptions(m.rawTx.value)] else [])
  }

  function FloorsAt(scripts: map<Hash32, Option<U64>>, ks: seq<Hash32>): (r: seq<U64>)
    requires forall k :: k in ks ==> k in scripts
    ensures |r| == |ks| && forall i :: 0 <= i < |ks| ==> r[i] == Floor(scripts[ks[i]])
  {
    if ks == [] then [] else FloorsAt(scripts, Pop(ks)) + [Floor(scripts[Last(ks)])]
  }

  ghost predicate Floored(scripts: map<Hash32, Option<U64>>) { exists k :: k in scripts && scripts[k].Some? }

  /** All scripts in one message, with floors for all of them or none. */
  ghost function ScriptMsgs(scripts: map<Hash32, Option<U64>>): seq<Control> {
    if scripts == map[] then []
    else
      var ks := Hashes(scripts.Keys);
      [AddScripts(ks, if Floored(scripts) then FloorsAt(scripts, ks) else [])]
  }

  ghost function OutpointMsgs(outpoints: set<OutPoint>): seq<Control> {
    if outpoints == {} then [] else [AddOutpoints(Points(outpoints))]
  }

  ghost function TxidsAt(lifecycles: map<Hash32, U32>, depth: U32): seq<Hash32> {
    Hashes(set t | t in lifecycles && lifecycles[t] == depth)
  }

  /** One message per auto-close depth, with no list of depths. */
  ghost function LifecycleMsgs(lifecycles: map<Hash32, U32>, depths: seq<U32>): seq<Control> {
    if depths == [] then []
    else LifecycleMsgs(lifecycles, Pop(depths)) + [AddTransactions(TxidsAt(lifecycles, Last(depths)), [], Last(depths))]
  }

  function Alarmed(alarms: set<Alarm>): set<Hash32> { set a | a in alarms :: a.txid }

  ghost function DepthsOf(alarms: set<Alarm>, t: Hash32): seq<U32> {
    Numbers(set a | a in alarms && a.txid == t :: a.depth)
  }

  ghost function KeyAt(alarms: set<Alarm>, t: Hash32): string { DepthSetKey(DepthsOf(alarms, t)) }

  ghost function AlarmKeys(alarms: set<Alarm>): set<string> { set t | t in Alarmed(alarms) :: KeyAt(alarms, t) }

  ghost function TxidsUnder(alarms: set<Alarm>, key: string): seq<Hash32> {
    Hashes(set t | t in Alarmed(alarms) && KeyAt(alarms, t) == key)
  }

  /** The depths last stored under a key. */
  ghost function DepthsUnder(alarms: set<Alarm>, key: string): seq<U32> {
    var ts := TxidsUnder(alarms, key);
    if ts == [] then [] else DepthsOf(alarms, Last(ts))
  }

  /** One message per key. */
  ghost function AlarmMsgs(alarms: set<Alarm>, keys: seq<string>): seq<Control> {
    if keys == [] then []
    else
      var key := Last(keys);
      AlarmMsgs(alarms, Pop(keys)) + [AddTransactions(TxidsUnder(alarms, key), DepthsUnder(alarms, key), 0)]
  }

  function DescriptorMsgs(descriptors: map<string, Window>, ds: seq<string>): seq<Control>
    requires forall d :: d in ds ==> d in descriptors
  {
    if ds == [] then []
    else DescriptorMsgs(descriptors, Pop(ds)) + [AddDescriptor(Last(ds), descriptors[Last(ds)])]
  }

  ghost function PrefixMsgs(prefixes: set<Prefix>): seq<Control>
    requires forall p :: p in prefixes ==> ValidPrefix(p)
  {
    if prefixes == {} then []
    else
      var ps := Buckets(prefixes);
      assert AllValid(ps) by { assert forall i :: 0 <= i < |ps| ==> ps[i] in ps; }
      [AddScriptPrefixes(Masked(ps))]
  }

  function TargetsOf(silent: map<Bytes, Target>, ids: seq<Bytes>): (ts: seq<Target>)
    requires forall i :: i in ids ==> i in silent
    ensures |ts| == |ids| && forall i :: 0 <= i < |ids| ==> ts[i] == silent[ids[i]]
  {
    if ids == [] then [] else TargetsOf(silent, Pop(ids)) + [silent[Last(ids)]]
  }

  ghost function SilentMsgs(silent: map<Bytes, Target>): seq<Control> {
    if silent == map[] then [] else [AddSilentPayments(TargetsOf(silent, Identities(silent.Keys)))]
  }

  ghost predicate Renders(m: MirrorSet) { forall p :: p in m.prefixes ==> ValidPrefix(p) }

  /** The messages in order, or None when a prefix is invalid. */
  ghost function Rendered(m: MirrorSet): Option<seq<Control>> {
    if !Renders(m) then None
    else Some(OptionMsgs(m) + ScriptMsgs(m.scripts) + OutpointMsgs(m.outpoints)
              + LifecycleMsgs(m.lifecycles, Numbers(m.lifecycles.Values))
              + AlarmMsgs(m.alarms, Texts(AlarmKeys(m.alarms)))
              + DescriptorMsgs(m.descriptors, Texts(m.descriptors.Keys))
              + PrefixMsgs(m.prefixes) + SilentMsgs(m.silent))
  }

  // ---- They rebuild the set ------------------------------------------------------------

  /** What every edit keeps of the mirror: alarms have a depth, buckets are masked, targets
      are held under their identity. */
  ghost predicate Sound(m: MirrorSet) { SoundAlarms(m.alarms) && SoundPrefixes(m.prefixes) && SoundSilent(m.silent) }

  ghost predicate SoundAlarms(alarms: set<Alarm>) { forall a :: a in alarms ==> a.depth >= 1 }
  ghost predicate SoundPrefixes(prefixes: set<Prefix>) { forall p :: p in prefixes && ValidPrefix(p) ==> Mask(p) == p }
  ghost predicate SoundSilent(silent: map<Bytes, Target>) { forall i :: i in silent ==> silent[i].id == i }

  lemma MutateKeepsSound(m: MirrorSet, e: Edit)
    requires Sound(m) && Mutate(m, e).Some?
    ensures Sound(Mutate(m, e).value)
  {
    hide SoundAlarms, SoundPrefixes, SoundSilent, PutAll, Product, Masked, NewTargets, ValidDepths, Ids, Repeat,
      HashesOf, FloorsOf;
    match e
    case ArmAlarms(ts, ds) => ArmKeeps(m.alarms, ts, ds);
    case DisarmAlarms(ts, ds) => LessAlarms(m.alarms, Product(ts, ValidDepths(ds)));
    case WatchPrefixes(ps) => MaskKeeps(m.prefixes, ps);
    case DropPrefixes(ps) => LessPrefixes(m.prefixes, SetOf(Masked(ps)));
    case WatchSilent(ts) => assert SoundSilent(PutAll(m.silent, Ids(ts), ts)) by { TargetsKeep(m.silent, ts); }
    case DropSilent(ids) => LessSilent(m.silent, SetOf(ids));
    case _ =>
  }

  lemma ArmKeeps(alarms: set<Alarm>, ts: seq<Hash32>, ds: seq<U32>)
    requires SoundAlarms(alarms)
    ensures SoundAlarms(alarms + Product(ts, ValidDepths(ds)))
  {
  }

  lemma LessAlarms(alarms: set<Alarm>, less: set<Alarm>)
    requires SoundAlarms(alarms)
    ensures SoundAlarms(alarms - less)
  {
  }

  lemma MaskKeeps(prefixes: set<Prefix>, ps: seq<Prefix>)
    requires SoundPrefixes(prefixes) && AllValid(ps)
    ensures SoundPrefixes(prefixes + SetOf(Masked(ps)))
  {
    hide Mask, ValidPrefix;
  }

  lemma LessPrefixes(prefixes: set<Prefix>, less: set<Prefix>)
    requires SoundPrefixes(prefixes)
    ensures SoundPrefixes(prefixes - less)
  {
    hide Mask, ValidPrefix;
  }

  lemma LessSilent(silent: map<Bytes, Target>, less: set<Bytes>)
    requires SoundSilent(silent)
    ensures SoundSilent(silent - less)
  {
  }

  lemma TargetsKeep(silent: map<Bytes, Target>, ts: seq<Target>)
    requires SoundSilent(silent)
    ensures SoundSilent(PutAll(silent, Ids(ts), ts))
  {
    PutTargets(silent, ts);
  }

  lemma {:induction false} PutTargets(m: map<Bytes, Target>, ts: seq<Target>)
    requires forall i :: i in m ==> m[i].id == i
    ensures forall i :: i in PutAll(m, Ids(ts), ts) ==> PutAll(m, Ids(ts), ts)[i].id == i
  {
    if ts != [] { PutTargets(m, Pop(ts)); }
  }

  lemma OptionsBack(m: MirrorSet)
    ensures Fold(OptionMsgs(m), EMPTY) == EMPTY.(categories := ServedOf(m.categories), rawTx := m.rawTx)
  {
    hide Fold, Served;
    FoldOne(SetCategories(if m.categories.Some? then m.categories.value else 0), EMPTY);
    if m.rawTx.Some? {
      var categories := if m.categories.Some? then [SetCategories(m.categories.value)] else [];
      FoldNext(categories, SetWatchOptions(m.rawTx.value), EMPTY);
    } else {
      assert OptionMsgs(m) == if m.categories.Some? then [SetCategories(m.categories.value)] else [];
    }
  }

  lemma ScriptsBack(scripts: map<Hash32, Option<U64>>, w: NodeSet)
    requires w.scripts == map[]
    ensures Fold(ScriptMsgs(scripts), w) == w.(scripts := Floors(scripts))
  {
    hide Fold, PutAll, Repeat, FloorsAt, Floors, Floored;
    if scripts == map[] {
      FoldOne(SetCursor, w);
      NoFloors(scripts);
    } else {
      var ks := Hashes(scripts.Keys);
      FoldOne(ScriptMsgs(scripts)[0], w);
      SomeKey(scripts, ks);
      FloorsBack(scripts, ks);
    }
  }

  lemma NoFloors(scripts: map<Hash32, Option<U64>>)
    requires scripts == map[]
    ensures Floors(scripts) == map[]
  {
  }

  lemma FloorsBack(scripts: map<Hash32, Option<U64>>, ks: seq<Hash32>)
    requires Lists(ks, scripts.Keys)
    ensures PutAll(map[], ks, FloorsAt(scripts, ks)) == Floors(scripts)
    ensures !Floored(scripts) ==> FloorsAt(scripts, ks) == Repeat(0, |ks|)
  {
    hide PutAll, FloorsAt, Repeat;
    var fs, all := FloorsAt(scripts, ks), Floors(scripts);
    assert forall i :: 0 <= i < |ks| ==> ks[i] in ks;
    PutAllFrom(map[], ks, fs, all);
    AllOnly(all, ks);
    assert map[] + Only(all, ks) == all;
    if !Floored(scripts) { assert forall i :: 0 <= i < |ks| ==> fs[i] == 0; }
  }

  lemma SomeKey<K(!new), V>(m: map<K, V>, ks: seq<K>)
    requires m != map[] && Lists(ks, m.Keys)
    ensures ks != []
  {
    var k :| k in m;
    assert k in ks;
  }

  lemma OutpointsBack(outpoints: set<OutPoint>, w: NodeSet)
    requires w.outpoints == {}
    ensures Fold(OutpointMsgs(outpoints), w) == w.(outpoints := outpoints)
  {
    hide Fold;
    FoldOne(AddOutpoints(Points(outpoints)), w);
    assert SetOf(Points(outpoints)) == outpoints;
  }

  function Within(lifecycles: map<Hash32, U32>, depths: seq<U32>): map<Hash32, U32> {
    map t | t in lifecycles && lifecycles[t] in depths :: lifecycles[t]
  }

  /** No transaction is in two groups, so the node's rule for held lifecycles never shows. */
  lemma {:induction false} LifecyclesBack(lifecycles: map<Hash32, U32>, depths: seq<U32>, w: NodeSet)
    requires w.lifecycles == map[] && Sorted(depths, RankNumber)
    ensures Fold(LifecycleMsgs(lifecycles, depths), w) == w.(lifecycles := Within(lifecycles, depths))
  {
    hide Fold, AllAt, ValidDepths, Within, TxidsAt;
    if depths == [] {
      FoldOne(SetCursor, w);
      NoneWithin(lifecycles);
    } else {
      var d := Last(depths);
      LifecyclesBack(lifecycles, Pop(depths), w);
      FoldNext(LifecycleMsgs(lifecycles, Pop(depths)), AddTransactions(TxidsAt(lifecycles, d), [], d), w);
      NoDepths();
      WithinNext(lifecycles, depths);
    }
  }

  lemma NoneWithin(lifecycles: map<Hash32, U32>)
    ensures Within(lifecycles, []) == map[]
  {
  }

  lemma WithinNext(lifecycles: map<Hash32, U32>, depths: seq<U32>)
    requires depths != [] && Sorted(depths, RankNumber)
    ensures AllAt(TxidsAt(lifecycles, Last(depths)), Last(depths)) + Within(lifecycles, Pop(depths)) ==
            Within(lifecycles, depths)
  {
    var ts := TxidsAt(lifecycles, Last(depths));
    forall d ensures d in Pop(depths) <==> d in depths && d != Last(depths) { AllButLast(depths, RankNumber, d); }
    assert Last(depths) in depths;
    assert forall t :: t in ts <==> t in lifecycles && lifecycles[t] == Last(depths);
  }

  ghost predicate SameKey(alarms: set<Alarm>, t: Hash32, key: string) {
    t in Alarmed(alarms) && KeyAt(alarms, t) == key
  }

  /** Under one key all transactions have the same depths: the ones sent. */
  lemma UnderKey(alarms: set<Alarm>, key: string, t: Hash32, d: U32)
    requires SoundAlarms(alarms)
    ensures t in TxidsUnder(alarms, key) <==> SameKey(alarms, t, key)
    ensures SameKey(alarms, t, key) ==> (d in ValidDepths(DepthsUnder(alarms, key)) <==> Alarm(t, d) in alarms)
  {
    hide KeyAt, DepthSetKey;
    var ts := TxidsUnder(alarms, key);
    if SameKey(alarms, t, key) {
      assert t in ts;
      assert Last(ts) in ts;
      SameDepths(alarms, t, Last(ts));
      var ds := DepthsUnder(alarms, key);
      assert d in ds <==> Alarm(t, d) in alarms by { DepthsListed(alarms, t, d); }
    }
  }

  lemma DepthsListed(alarms: set<Alarm>, t: Hash32, d: U32)
    ensures d in DepthsOf(alarms, t) <==> Alarm(t, d) in alarms
  {
    if d in DepthsOf(alarms, t) {
      var a :| a in alarms && a.txid == t && a.depth == d;
      assert a == Alarm(t, d);
    }
  }

  lemma SameDepths(alarms: set<Alarm>, t: Hash32, u: Hash32)
    requires KeyAt(alarms, t) == KeyAt(alarms, u)
    ensures DepthsOf(alarms, t) == DepthsOf(alarms, u)
  {
    hide DepthSetKey;
    KeyInjective(DepthsOf(alarms, t), DepthsOf(alarms, u));
  }

  ghost function Keyed(alarms: set<Alarm>, keys: seq<string>): set<Alarm> {
    set a | a in alarms && KeyAt(alarms, a.txid) in keys
  }

  lemma KeyedNext(alarms: set<Alarm>, keys: seq<string>)
    requires keys != [] && SoundAlarms(alarms)
    ensures var key := Last(keys);
            Keyed(alarms, Pop(keys)) + Product(TxidsUnder(alarms, key), ValidDepths(DepthsUnder(alarms, key))) ==
              Keyed(alarms, keys)
  {
    hide KeyAt, ValidDepths, DepthsUnder, TxidsUnder;
    var key := Last(keys);
    var ts, ds := TxidsUnder(alarms, key), ValidDepths(DepthsUnder(alarms, key));
    assert forall k :: k in keys <==> k in Pop(keys) || k == key;
    forall a: Alarm ensures a in Keyed(alarms, Pop(keys)) + Product(ts, ds) <==> a in Keyed(alarms, keys) {
      UnderKey(alarms, key, a.txid, a.depth);
      assert a == Alarm(a.txid, a.depth);
      assert a in Product(ts, ds) <==> a.txid in ts && a.depth in ds;
      assert a in alarms ==> a.txid in Alarmed(alarms);
    }
  }

  /** A key of the alarms stands for at least one depth of at least 1: its message is about
      alarms. */
  lemma KeyHasDepth(alarms: set<Alarm>, key: string)
    requires SoundAlarms(alarms) && key in AlarmKeys(alarms)
    ensures ValidDepths(DepthsUnder(alarms, key)) != []
  {
    hide KeyAt, ValidDepths, DepthsUnder, TxidsUnder;
    var t :| t in Alarmed(alarms) && KeyAt(alarms, t) == key;
    var a :| a in alarms && a.txid == t;
    assert a == Alarm(t, a.depth);
    UnderKey(alarms, key, t, a.depth);
  }

  lemma {:induction false} AlarmsBack(alarms: set<Alarm>, keys: seq<string>, w: NodeSet)
    requires w.alarms == {} && SoundAlarms(alarms) && forall k :: k in keys ==> k in AlarmKeys(alarms)
    ensures Fold(AlarmMsgs(alarms, keys), w) == w.(alarms := Keyed(alarms, keys))
  {
    hide Fold, Product, ValidDepths, Keyed, TxidsUnder, DepthsUnder, SoundAlarms, AlarmKeys;
    if keys == [] {
      FoldOne(SetCursor, w);
      NoneKeyed(alarms);
    } else {
      var key := Last(keys);
      assert key in keys;
      AlarmsBack(alarms, Pop(keys), w);
      FoldNext(AlarmMsgs(alarms, Pop(keys)), AddTransactions(TxidsUnder(alarms, key), DepthsUnder(alarms, key), 0), w);
      KeyHasDepth(alarms, key);
      KeyedNext(alarms, keys);
    }
  }

  lemma NoneKeyed(alarms: set<Alarm>)
    ensures Keyed(alarms, []) == {}
  {
  }

  lemma AllKeyed(alarms: set<Alarm>)
    ensures Keyed(alarms, Texts(AlarmKeys(alarms))) == alarms
  {
    hide KeyAt;
    forall a | a in alarms ensures KeyAt(alarms, a.txid) in Texts(AlarmKeys(alarms)) {
      assert a.txid in Alarmed(alarms);
      assert KeyAt(alarms, a.txid) in AlarmKeys(alarms);
    }
  }

  /** Two transactions with the same depths travel under the same key, in one message. */
  lemma SameSetSameKey(alarms: set<Alarm>, t: Hash32, u: Hash32)
    requires forall d :: Alarm(t, d) in alarms <==> Alarm(u, d) in alarms
    ensures KeyAt(alarms, t) == KeyAt(alarms, u)
  {
    forall d ensures d in DepthsOf(alarms, t) <==> d in DepthsOf(alarms, u) {
      DepthsListed(alarms, t, d);
      DepthsListed(alarms, u, d);
    }
    SortedUnique(DepthsOf(alarms, t), DepthsOf(alarms, u), RankNumber);
  }

  function Only<K, V>(m: map<K, V>, ks: seq<K>): map<K, V> { map k | k in m && k in ks :: m[k] }

  lemma OnlyNext<K, V>(m: map<K, V>, ks: seq<K>)
    requires ks != [] && Last(ks) in m
    ensures Only(m, Pop(ks))[Last(ks) := m[Last(ks)]] == Only(m, ks)
  {
    assert forall k :: k in ks <==> k in Pop(ks) || k == Last(ks);
  }

  lemma {:induction false} DescriptorsBack(descriptors: map<string, Window>, ds: seq<string>, w: NodeSet)
    requires w.descriptors == map[] && forall d :: d in ds ==> d in descriptors
    ensures Fold(DescriptorMsgs(descriptors, ds), w) == w.(descriptors := Only(descriptors, ds))
  {
    if ds == [] {
      FoldOne(SetCursor, w);
      assert Only(descriptors, ds) == map[];
    } else {
      hide Fold, Only;
      assert Last(ds) in ds;
      DescriptorsBack(descriptors, Pop(ds), w);
      FoldNext(DescriptorMsgs(descriptors, Pop(ds)), AddDescriptor(Last(ds), descriptors[Last(ds)]), w);
      OnlyNext(descriptors, ds);
    }
  }

  lemma {:induction false} MaskedSame(ps: seq<Prefix>)
    requires AllValid(ps) && forall i :: 0 <= i < |ps| ==> Mask(ps[i]) == ps[i]
    ensures Masked(ps) == ps
  {
    hide Mask, ValidPrefix;
    if ps != [] {
      MaskedSame(Pop(ps));
      assert Masked(ps) == Masked(Pop(ps)) + [Mask(Last(ps))];
      assert ps == Pop(ps) + [Last(ps)];
    }
  }

  lemma PrefixesBack(prefixes: set<Prefix>, w: NodeSet)
    requires w.prefixes == {} && SoundPrefixes(prefixes) && forall p :: p in prefixes ==> ValidPrefix(p)
    ensures Fold(PrefixMsgs(prefixes), w) == w.(prefixes := prefixes)
  {
    hide Fold, Mask, Masked, ValidPrefix;
    if prefixes == {} {
      FoldOne(SetCursor, w);
    } else {
      var ps := Buckets(prefixes);
      assert forall i :: 0 <= i < |ps| ==> ps[i] in prefixes;
      MaskedSame(ps);
      assert SetOf(ps) == prefixes;
      FoldOne(AddScriptPrefixes(Masked(ps)), w);
    }
  }

  lemma SilentBack(silent: map<Bytes, Target>, w: NodeSet)
    requires w.silent == map[] && SoundSilent(silent)
    ensures Fold(SilentMsgs(silent), w) == w.(silent := silent)
  {
    hide Fold, PutAll, TargetsOf, Ids, SoundSilent, Identities;
    var ids := Identities(silent.Keys);
    TargetsBack(silent, ids);
    FoldOne(AddSilentPayments(TargetsOf(silent, ids)), w);
  }

  lemma TargetsBack(silent: map<Bytes, Target>, ids: seq<Bytes>)
    requires SoundSilent(silent) && (forall i :: i in ids <==> i in silent)
    ensures Ids(TargetsOf(silent, ids)) == ids
    ensures PutAll(map[], ids, TargetsOf(silent, ids)) == silent
  {
    hide PutAll, TargetsOf, Ids;
    var ts := TargetsOf(silent, ids);
    assert forall i :: 0 <= i < |ids| ==> ids[i] in ids && Ids(ts)[i] == ids[i];
    PutAllFrom(map[], ids, ts, silent);
    AllOnly(silent, ids);
    assert map[] + Only(silent, ids) == silent;
  }

  /** Replayed over the empty set by the node's own rules, the messages give the mirror. */
  lemma RenderedRebuilds(m: MirrorSet)
    requires Sound(m) && Renders(m)
    ensures Fold(Rendered(m).value, EMPTY) == Normal(m)
  {
    hide Fold, Floors, OptionMsgs, ScriptMsgs, OutpointMsgs, LifecycleMsgs, AlarmMsgs, DescriptorMsgs, PrefixMsgs,
      SilentMsgs;
    hide Keyed, Only, Within, AlarmKeys, SoundAlarms, SoundPrefixes, SoundSilent;
    var a := OptionMsgs(m);
    OptionsBack(m);
    var w := EMPTY.(categories := ServedOf(m.categories), rawTx := m.rawTx);
    FoldAppend(a, ScriptMsgs(m.scripts), EMPTY);
    ScriptsBack(m.scripts, w);
    a, w := a + ScriptMsgs(m.scripts), w.(scripts := Floors(m.scripts));
    FoldAppend(a, OutpointMsgs(m.outpoints), EMPTY);
    OutpointsBack(m.outpoints, w);
    a, w := a + OutpointMsgs(m.outpoints), w.(outpoints := m.outpoints);
    var depths := Numbers(m.lifecycles.Values);
    FoldAppend(a, LifecycleMsgs(m.lifecycles, depths), EMPTY);
    LifecyclesBack(m.lifecycles, depths, w);
    AllWithin(m.lifecycles, depths);
    a, w := a + LifecycleMsgs(m.lifecycles, depths), w.(lifecycles := m.lifecycles);
    var keys := Texts(AlarmKeys(m.alarms));
    FoldAppend(a, AlarmMsgs(m.alarms, keys), EMPTY);
    AlarmsBack(m.alarms, keys, w);
    AllKeyed(m.alarms);
    a, w := a + AlarmMsgs(m.alarms, keys), w.(alarms := m.alarms);
    RenderedTail(m, a, w);
  }

  lemma RenderedTail(m: MirrorSet, a: seq<Control>, w: NodeSet)
    requires Sound(m) && Renders(m) && Fold(a, EMPTY) == w
    requires w == EMPTY.(categories := ServedOf(m.categories), rawTx := m.rawTx, scripts := Floors(m.scripts),
                         outpoints := m.outpoints, lifecycles := m.lifecycles, alarms := m.alarms)
    ensures var d := DescriptorMsgs(m.descriptors, Texts(m.descriptors.Keys));
            Fold(a + d + PrefixMsgs(m.prefixes) + SilentMsgs(m.silent), EMPTY) == Normal(m)
  {
    hide Fold, Floors, DescriptorMsgs, PrefixMsgs, SilentMsgs, Only, SoundAlarms, SoundPrefixes, SoundSilent;
    var ds := Texts(m.descriptors.Keys);
    var d, p, s := DescriptorMsgs(m.descriptors, ds), PrefixMsgs(m.prefixes), SilentMsgs(m.silent);
    FoldAppend(a, d, EMPTY);
    DescriptorsBack(m.descriptors, ds, w);
    AllOnly(m.descriptors, ds);
    var w1 := w.(descriptors := m.descriptors);
    FoldAppend(a + d, p, EMPTY);
    PrefixesBack(m.prefixes, w1);
    FoldAppend(a + d + p, s, EMPTY);
    SilentBack(m.silent, w1.(prefixes := m.prefixes));
  }

  lemma AllWithin(lifecycles: map<Hash32, U32>, depths: seq<U32>)
    requires Lists(depths, lifecycles.Values)
    ensures Within(lifecycles, depths) == lifecycles
  {
  }

  lemma AllOnly<K(!new), V>(m: map<K, V>, ks: seq<K>)
    requires Lists(ks, m.Keys)
    ensures Only(m, ks) == m
  {
  }
}
