/** The mirror object, its rendering by loops, and the watch that owns the stream, proved to do
    what the specification and the state machine say. */
module Replay {
  import opened ScriptTypes
  import opened Order
  import opened DepthKey
  import opened Mirror
  import opened Render
  import opened WatchRun
  import DescriptorSlides

  // ---- Grouping ------------------------------------------------------------------------

  /** The items of a list that have this key, in their order. */
  function Select<T, K(==)>(items: seq<T>, keyOf: map<T, K>, k: K): seq<T>
    requires forall t :: t in items ==> t in keyOf
  {
    if items == [] then []
    else
      assert Last(items) in items;
      Select(Pop(items), keyOf, k) + if keyOf[Last(items)] == k then [Last(items)] else []
  }

  lemma {:induction false} SelectMembers<T, K>(items: seq<T>, keyOf: map<T, K>, k: K, t: T)
    requires forall t :: t in items ==> t in keyOf
    ensures t in Select(items, keyOf, k) <==> t in items && keyOf[t] == k
  {
    if items != [] {
      SelectMembers(Pop(items), keyOf, k, t);
      assert Last(items) in items && items == Pop(items) + [Last(items)];
    }
  }

  lemma {:induction false} SelectSorted<T, K>(items: seq<T>, keyOf: map<T, K>, k: K, rank: Rank<T>)
    requires Sorted(items, rank) && forall t :: t in items ==> t in keyOf
    ensures Sorted(Select(items, keyOf, k), rank)
  {
    if items != [] {
      var rest, x := Pop(items), Last(items);
      assert x in items;
      SelectSorted(rest, keyOf, k, rank);
      var picked := Select(rest, keyOf, k);
      forall i | 0 <= i < |picked| ensures LexLess(rank(picked[i]), rank(x)) {
        SelectMembers(rest, keyOf, k, picked[i]);
        var j :| 0 <= j < |rest| && rest[j] == picked[i];
        assert items[j] == picked[i];
      }
    }
  }

  function Image<T, K>(items: seq<T>, keyOf: map<T, K>): set<K>
    requires forall t :: t in items ==> t in keyOf
  {
    set t | t in items :: keyOf[t]
  }

  /** Append each item to the list of its key. */
  method Collect<T(==), K(==)>(items: seq<T>, keyOf: map<T, K>) returns (groups: map<K, seq<T>>)
    requires forall t :: t in items ==> t in keyOf
    ensures groups.Keys == Image(items, keyOf)
    ensures forall k :: k in groups ==> groups[k] == Select(items, keyOf, k)
  {
    groups := map[];
    for i := 0 to |items|
      invariant groups.Keys == Image(items[..i], keyOf)
      invariant forall k :: k in groups ==> groups[k] == Select(items[..i], keyOf, k)
    {
      var t, k := items[i], keyOf[items[i]];
      assert items[..i + 1] == items[..i] + [t] && Pop(items[..i + 1]) == items[..i];
      if k !in groups { NoneSelected(items[..i], keyOf, k); }
      groups := groups[k := (if k in groups then groups[k] else []) + [t]];
    }
    assert items[..|items|] == items;
  }

  lemma {:induction false} NoneSelected<T, K>(items: seq<T>, keyOf: map<T, K>, k: K)
    requires (forall t :: t in items ==> t in keyOf) && k !in Image(items, keyOf)
    ensures Select(items, keyOf, k) == []
  {
    if items != [] {
      assert Last(items) in items;
      assert forall t :: t in Pop(items) ==> t in items;
      NoneSelected(Pop(items), keyOf, k);
    }
  }

  // ---- Keys, collected and sorted ------------------------------------------------------

  method SortHashes(s: set<Hash32>) returns (r: seq<Hash32>)
    ensures r == Hashes(s)
  {
    RanksDistinguish();
    r := SortedElements(s, RankHash);
  }

  method SortNumbers(s: set<U32>) returns (r: seq<U32>)
    ensures r == Numbers(s)
  {
    RanksDistinguish();
    r := SortedElements(s, RankNumber);
  }

  method SortTexts(s: set<string>) returns (r: seq<string>)
    ensures r == Texts(s)
  {
    RanksDistinguish();
    r := SortedElements(s, RankText);
  }

  method SortPoints(s: set<OutPoint>) returns (r: seq<OutPoint>)
    ensures r == Points(s)
  {
    RanksDistinguish();
    r := SortedElements(s, RankOutPoint);
  }

  method SortIdentities(s: set<Bytes>) returns (r: seq<Bytes>)
    ensures r == Identities(s)
  {
    RanksDistinguish();
    r := SortedElements(s, RankBytes);
  }

  method SortBuckets(s: set<Prefix>) returns (r: seq<Prefix>)
    ensures r == Buckets(s)
  {
    PrefixRanks();
    r := SortedElements(s, RankPrefix);
  }

  // ---- One kind at a time --------------------------------------------------------------

  method RenderOptions(m: MirrorSet) returns (out: seq<Control>)
    ensures out == OptionMsgs(m)
  {
    out := [];
    if m.categories.Some? { out := out + [SetCategories(m.categories.value)]; }
    if m.rawTx.Some? { out := out + [SetWatchOptions(m.rawTx.value)]; }
  }

  method RenderScripts(scripts: map<Hash32, Option<U64>>) returns (out: seq<Control>)
    ensures out == ScriptMsgs(scripts)
  {
    hide Hashes, Sorted;
    if scripts == map[] { return []; }
    var hashes := SortHashes(scripts.Keys);
    var floored := false;
    var values: seq<U64> := [];
    for i := 0 to |hashes|
      invariant values == FloorsAt(scripts, hashes[..i])
      invariant floored <==> exists k :: k in hashes[..i] && scripts[k].Some?
    {
      assert hashes[..i + 1] == hashes[..i] + [hashes[i]] && Pop(hashes[..i + 1]) == hashes[..i];
      if scripts[hashes[i]].Some? { floored := true; }
      values := values + [Floor(scripts[hashes[i]])];
    }
    assert hashes[..|hashes|] == hashes;
    assert floored <==> Floored(scripts);
    return [AddScripts(hashes, if floored then values else [])];
  }

  method RenderOutpoints(outpoints: set<OutPoint>) returns (out: seq<Control>)
    ensures out == OutpointMsgs(outpoints)
  {
    if outpoints == {} { return []; }
    var os := SortPoints(outpoints);
    return [AddOutpoints(os)];
  }

  method RenderLifecycles(lifecycles: map<Hash32, U32>) returns (out: seq<Control>)
    ensures out == LifecycleMsgs(lifecycles, Numbers(lifecycles.Values))
  {
    hide TxidsAt, Hashes, Numbers, Sorted, Select;
    var txids := SortHashes(lifecycles.Keys);
    var byDepth: map<U32, seq<Hash32>> := Collect(txids, lifecycles);
    assert byDepth.Keys == lifecycles.Values;
    var depths := SortNumbers(byDepth.Keys);
    out := [];
    for j := 0 to |depths|
      invariant out == LifecycleMsgs(lifecycles, depths[..j])
    {
      assert Pop(depths[..j + 1]) == depths[..j];
      assert depths[j] in depths;
      SelectedAt(txids, lifecycles, depths[j]);
      out := out + [AddTransactions(byDepth[depths[j]], [], depths[j])];
    }
    assert depths[..|depths|] == depths;
  }

  lemma SelectedAt(txids: seq<Hash32>, lifecycles: map<Hash32, U32>, depth: U32)
    requires Lists(txids, lifecycles.Keys) && Sorted(txids, RankHash)
    ensures Select(txids, lifecycles, depth) == TxidsAt(lifecycles, depth)
  {
    RanksDistinguish();
    SelectSorted(txids, lifecycles, depth, RankHash);
    forall t ensures t in Select(txids, lifecycles, depth) <==> t in lifecycles && lifecycles[t] == depth {
      SelectMembers(txids, lifecycles, depth, t);
    }
    IsSortedOf(Select(txids, lifecycles, depth), (set t | t in lifecycles && lifecycles[t] == depth), RankHash);
  }

  /** The alarmed transactions in order, each with its depths in order. */
  method GroupAlarms(alarms: set<Alarm>) returns (txids: seq<Hash32>, byTxid: map<Hash32, seq<U32>>)
    ensures txids == Hashes(Alarmed(alarms)) && byTxid.Keys == Alarmed(alarms)
    ensures forall t :: t in byTxid ==> byTxid[t] == DepthsOf(alarms, t)
  {
    hide Sorted, Insert, Lists;
    RanksDistinguish();
    byTxid := map[];
    var left := alarms;
    while left != {}
      invariant left <= alarms && byTxid.Keys == Alarmed(alarms - left)
      invariant forall t :: t in byTxid ==>
                  Sorted(byTxid[t], RankNumber) && Lists(byTxid[t], DepthSet(alarms - left, t))
    {
      var a :| a in left;
      var ds: seq<U32> := if a.txid in byTxid then byTxid[a.txid] else [];
      AddDepth(alarms, left, a, ds);
      byTxid := byTxid[a.txid := Insert(ds, a.depth, RankNumber)];
      left := left - {a};
    }
    assert alarms - {} == alarms;
    forall t | t in byTxid ensures byTxid[t] == DepthsOf(alarms, t) {
      IsSortedOf(byTxid[t], DepthSet(alarms, t), RankNumber);
    }
    txids := SortHashes(byTxid.Keys);
  }

  function DepthSet(alarms: set<Alarm>, t: Hash32): set<U32> { set a | a in alarms && a.txid == t :: a.depth }

  /** Taking one more alarm into account. */
  lemma AddDepth(alarms: set<Alarm>, left: set<Alarm>, a: Alarm, ds: seq<U32>)
    requires left <= alarms && a in left
    requires if a.txid in Alarmed(alarms - left)
             then Sorted(ds, RankNumber) && Lists(ds, DepthSet(alarms - left, a.txid)) else ds == []
    ensures Alarmed(alarms - (left - {a})) == Alarmed(alarms - left) + {a.txid}
    ensures forall t :: t != a.txid ==> DepthSet(alarms - (left - {a}), t) == DepthSet(alarms - left, t)
    ensures var r := Insert(ds, a.depth, RankNumber);
            Sorted(r, RankNumber) && Lists(r, DepthSet(alarms - (left - {a}), a.txid))
  {
    var before, after := alarms - left, alarms - (left - {a});
    assert after == before + {a} && a !in before;
    forall t ensures DepthSet(after, t) == DepthSet(before, t) + if t == a.txid then {a.depth} else {} {
      DepthSetNext(before, a, t);
    }
    RanksDistinguish();
    assert Lists(ds, DepthSet(before, a.txid)) by {
      if a.txid !in Alarmed(before) { assert DepthSet(before, a.txid) == {}; }
    }
    assert forall b :: b in before && b.txid == a.txid ==> b.depth != a.depth by {
      assert forall b: Alarm :: b.txid == a.txid && b.depth == a.depth ==> b == a;
    }
    InsertSorted(ds, a.depth, RankNumber);
    forall d ensures d in Insert(ds, a.depth, RankNumber) <==> d in DepthSet(after, a.txid) {
      InsertMembers(ds, a.depth, RankNumber, d);
    }
  }

  lemma DepthSetNext(before: set<Alarm>, a: Alarm, t: Hash32)
    ensures DepthSet(before + {a}, t) == DepthSet(before, t) + if t == a.txid then {a.depth} else {}
  {
    var l, r := DepthSet(before + {a}, t), DepthSet(before, t) + if t == a.txid then {a.depth} else {};
    forall d ensures d in l <==> d in r {
      if d in l {
        var b :| b in before + {a} && b.txid == t && b.depth == d;
      }
    }
  }

  method RenderAlarms(alarms: set<Alarm>) returns (out: seq<Control>)
    ensures out == AlarmMsgs(alarms, Texts(AlarmKeys(alarms)))
  {
    hide TxidsUnder, DepthsOf, DepthSetKey, Hashes, Select, Texts, Sorted, Alarmed, AlarmKeys, Image;
    var txids, byTxid := GroupAlarms(alarms);
    var keyOf: map<Hash32, string> := KeysByTxid(txids, byTxid);
    var bySet: map<string, seq<Hash32>> := Collect(txids, keyOf);
    KeysAgree(alarms, txids, keyOf);
    var keys := SortTexts(bySet.Keys);
    out := [];
    for j := 0 to |keys|
      invariant out == AlarmMsgs(alarms, keys[..j])
    {
      assert Pop(keys[..j + 1]) == keys[..j];
      var key := keys[j];
      assert key in keys;
      var ts: seq<Hash32> := bySet[key];
      SelectedUnder(alarms, txids, keyOf, key);
      assert Last(ts) in ts;
      out := out + [AddTransactions(ts, byTxid[Last(ts)], 0)];
    }
    assert keys[..|keys|] == keys;
  }

  method KeysByTxid(txids: seq<Hash32>, byTxid: map<Hash32, seq<U32>>) returns (keyOf: map<Hash32, string>)
    requires Lists(txids, byTxid.Keys)
    ensures keyOf.Keys == byTxid.Keys && forall t :: t in byTxid ==> keyOf[t] == DepthSetKey(byTxid[t])
  {
    hide DepthSetKey;
    keyOf := map[];
    for i := 0 to |txids|
      invariant keyOf.Keys == SetOf(txids[..i])
      invariant forall t :: t in keyOf ==> t in byTxid && keyOf[t] == DepthSetKey(byTxid[t])
    {
      SetOfNext(txids, i);
      assert txids[i] in txids;
      var key := BuildKey(byTxid[txids[i]]);
      keyOf := keyOf[txids[i] := key];
    }
    assert txids[..|txids|] == txids;
    assert SetOf(txids) == byTxid.Keys;
  }

  lemma KeysAgree(alarms: set<Alarm>, txids: seq<Hash32>, keyOf: map<Hash32, string>)
    requires Lists(txids, Alarmed(alarms)) && keyOf.Keys == Alarmed(alarms)
    requires forall t :: t in keyOf ==> keyOf[t] == KeyAt(alarms, t)
    ensures Image(txids, keyOf) == AlarmKeys(alarms)
  {
    hide KeyAt;
  }

  lemma SelectedUnder(alarms: set<Alarm>, txids: seq<Hash32>, keyOf: map<Hash32, string>, key: string)
    requires Lists(txids, Alarmed(alarms)) && Sorted(txids, RankHash) && keyOf.Keys == Alarmed(alarms)
    requires key in AlarmKeys(alarms) && forall t :: t in keyOf ==> keyOf[t] == KeyAt(alarms, t)
    ensures Select(txids, keyOf, key) == TxidsUnder(alarms, key) != []
    ensures forall t :: t in TxidsUnder(alarms, key) ==> t in Alarmed(alarms)
  {
    hide KeyAt;
    RanksDistinguish();
    SelectSorted(txids, keyOf, key, RankHash);
    var picked := Select(txids, keyOf, key);
    forall t ensures t in picked <==> t in Alarmed(alarms) && KeyAt(alarms, t) == key {
      SelectMembers(txids, keyOf, key, t);
    }
    IsSortedOf(picked, (set t | t in Alarmed(alarms) && KeyAt(alarms, t) == key), RankHash);
    var t :| t in Alarmed(alarms) && KeyAt(alarms, t) == key;
    assert t in picked;
  }

  method RenderDescriptors(descriptors: map<string, Window>) returns (out: seq<Control>)
    ensures out == DescriptorMsgs(descriptors, Texts(descriptors.Keys))
  {
    hide Texts, Sorted;
    var ds := SortTexts(descriptors.Keys);
    assert forall i, d :: 0 <= i <= |ds| && d in ds[..i] ==> d in ds;
    out := [];
    for j := 0 to |ds|
      invariant out == DescriptorMsgs(descriptors, ds[..j])
    {
      assert Pop(ds[..j + 1]) == ds[..j];
      out := out + [AddDescriptor(ds[j], descriptors[ds[j]])];
    }
    assert ds[..|ds|] == ds;
  }

  /** The buckets are checked and masked again on the way out. */
  method RenderPrefixes(prefixes: set<Prefix>) returns (out: Option<seq<Control>>)
    ensures out.Some? <==> forall p :: p in prefixes ==> ValidPrefix(p)
    ensures out.Some? ==> out.value == PrefixMsgs(prefixes)
  {
    hide Mask, ValidPrefix, Masked, Buckets, Sorted;
    if prefixes == {} { return Some([]); }
    var ps := SortBuckets(prefixes);
    var masked := MaskAll(ps);
    if masked.None? { return None; }
    forall p | p in prefixes ensures ValidPrefix(p) { assert p in ps; }
    return Some([AddScriptPrefixes(masked.value)]);
  }

  method MaskAll(ps: seq<Prefix>) returns (r: Option<seq<Prefix>>)
    ensures r.None? ==> exists p :: p in ps && !ValidPrefix(p)
    ensures r.Some? ==> AllValid(ps) && r.value == Masked(ps)
  {
    hide Mask, ValidPrefix, Masked;
    var masked: seq<Prefix> := [];
    MaskedNext(ps, 0);
    for i := 0 to |ps|
      invariant AllValid(ps[..i]) && masked == Masked(ps[..i])
    {
      if !ValidPrefix(ps[i]) { return None; }
      MaskedNext(ps, i);
      masked := masked + [Mask(ps[i])];
    }
    assert ps[..|ps|] == ps;
    return Some(masked);
  }

  lemma MaskedNext(ps: seq<Prefix>, i: nat)
    requires i <= |ps| && AllValid(ps[..i])
    ensures i == 0 ==> Masked(ps[..i]) == []
    ensures i < |ps| && ValidPrefix(ps[i]) ==>
            AllValid(ps[..i + 1]) && Masked(ps[..i + 1]) == Masked(ps[..i]) + [Mask(ps[i])]
  {
    hide Mask, ValidPrefix;
    if i < |ps| && ValidPrefix(ps[i]) {
      var next := ps[..i + 1];
      assert Pop(next) == ps[..i] && Last(next) == ps[i];
      assert AllValid(next);
    }
  }

  method RenderSilent(silent: map<Bytes, Target>) returns (out: seq<Control>)
    ensures out == SilentMsgs(silent)
  {
    if silent == map[] { return []; }
    hide Identities, Sorted;
    var ids := SortIdentities(silent.Keys);
    var ts: seq<Target> := [];
    for i := 0 to |ids|
      invariant ts == TargetsOf(silent, ids[..i])
    {
      assert Pop(ids[..i + 1]) == ids[..i];
      ts := ts + [silent[ids[i]]];
    }
    assert ids[..|ids|] == ids;
    return [AddSilentPayments(ts)];
  }

  /** The whole set, kind by kind. */
  method ControlMessages(m: MirrorSet) returns (out: Option<seq<Control>>)
    ensures out == Rendered(m)
  {
    hide OptionMsgs, ScriptMsgs, OutpointMsgs, LifecycleMsgs, AlarmMsgs, DescriptorMsgs, PrefixMsgs, SilentMsgs;
    hide Numbers, Texts, AlarmKeys;
    var msgs := RenderOptions(m);
    var part := RenderScripts(m.scripts);
    msgs := msgs + part;
    part := RenderOutpoints(m.outpoints);
    msgs := msgs + part;
    part := RenderLifecycles(m.lifecycles);
    msgs := msgs + part;
    part := RenderAlarms(m.alarms);
    msgs := msgs + part;
    part := RenderDescriptors(m.descriptors);
    msgs := msgs + part;
    var prefixes := RenderPrefixes(m.prefixes);
    if prefixes.None? { return None; }
    msgs := msgs + prefixes.value;
    part := RenderSilent(m.silent);
    return Some(msgs + part);
  }

  // ---- The mirror object ---------------------------------------------------------------

  /** A refusal, as the node names the refused items. */
  datatype Refused = Refused(descriptor: string, window: Window, kept: bool)
  datatype Refusal = Refusal(
    scripts: seq<Hash32>, outpoints: seq<OutPoint>, txids: seq<Hash32>, alarms: seq<Alarm>,
    prefixes: seq<Prefix>, ids: seq<Bytes>, window: Option<Refused>)

  /** What an edit does to a descriptor's window and history. */
  function SlotAfter(s: DescriptorSlides.Slot, d: string, e: Edit): DescriptorSlides.Slot {
    match e
    case WatchDescriptor(x, win) => if x == d then DescriptorSlides.Slide(s, win) else s
    case DropDescriptor(x) => if x == d then DescriptorSlides.VACANT else s
    case _ => s
  }

  /** What a refusal leaves of it. */
  function SlotWithout(s: DescriptorSlides.Slot, d: string, r: Refusal): DescriptorSlides.Slot {
    if r.window.Some? && r.window.value.descriptor == d
    then DescriptorSlides.Refuse(s, r.window.value.window, r.window.value.kept) else s
  }

  class WatchSet {
    var scripts: map<Hash32, Option<U64>>
    var outpoints: set<OutPoint>
    var lifecycles: map<Hash32, U32>
    var alarms: set<Alarm>
    var descriptors: map<string, Window>
    var descriptorHistory: map<string, seq<Window>>
    var prefixes: set<Prefix>
    var silent: map<Bytes, Target>
    var categories: Option<U32>
    var rawTx: Option<bool>

    function View(): MirrorSet
      reads this
    {
      Watches(scripts, outpoints, lifecycles, alarms, descriptors, prefixes, silent, categories, rawTx)
    }

    constructor ()
      ensures Normal(View()) == EMPTY && forall d :: SlotOf(d) == DescriptorSlides.VACANT
    {
      scripts, outpoints, lifecycles, alarms, descriptorHistory := map[], {}, map[], {}, map[];
      descriptors, prefixes, silent, categories, rawTx := map[], {}, map[], None, None;
    }

    method AddScripts(items: seq<ScriptWatch>)
      modifies this`scripts
      ensures scripts == PutAll(old(scripts), HashesOf(items), FloorsOf(items))
    {
      for i := 0 to |items|
        invariant scripts == PutAll(old(scripts), HashesOf(items[..i]), FloorsOf(items[..i]))
      {
        assert Pop(items[..i + 1]) == items[..i];
        scripts := scripts[items[i].hash := items[i].floor];
      }
      assert items[..|items|] == items;
    }

    method RemoveScripts(hashes: seq<Hash32>)
      modifies this`scripts
      ensures scripts == old(scripts) - SetOf(hashes)
    {
      for i := 0 to |hashes|
        invariant scripts == old(scripts) - SetOf(hashes[..i])
      {
        SetOfNext(hashes, i);
        scripts := scripts - {hashes[i]};
      }
      assert hashes[..|hashes|] == hashes;
    }

    method AddOutpoints(ops: seq<OutPoint>)
      modifies this`outpoints
      ensures outpoints == old(outpoints) + SetOf(ops)
    {
      for i := 0 to |ops|
        invariant outpoints == old(outpoints) + SetOf(ops[..i])
      {
        SetOfNext(ops, i);
        outpoints := outpoints + {ops[i]};
      }
      assert ops[..|ops|] == ops;
    }

    method RemoveOutpoints(ops: seq<OutPoint>)
      modifies this`outpoints
      ensures outpoints == old(outpoints) - SetOf(ops)
    {
      for i := 0 to |ops|
        invariant outpoints == old(outpoints) - SetOf(ops[..i])
      {
        SetOfNext(ops, i);
        outpoints := outpoints - {ops[i]};
      }
      assert ops[..|ops|] == ops;
    }

    method AddTxLifecycle(autoClose: U32, txids: seq<Hash32>)
      modifies this`lifecycles
      ensures lifecycles == old(lifecycles) + AllAt(txids, autoClose)
    {
      for i := 0 to |txids|
        invariant lifecycles == old(lifecycles) + AllAt(txids[..i], autoClose)
      {
        assert txids[..i + 1] == txids[..i] + [txids[i]];
        lifecycles := lifecycles[txids[i] := autoClose];
      }
      assert txids[..|txids|] == txids;
    }

    method RemoveTxLifecycle(txids: seq<Hash32>)
      modifies this`lifecycles
      ensures lifecycles == old(lifecycles) - SetOf(txids)
    {
      for i := 0 to |txids|
        invariant lifecycles == old(lifecycles) - SetOf(txids[..i])
      {
        SetOfNext(txids, i);
        lifecycles := lifecycles - {txids[i]};
      }
      assert txids[..|txids|] == txids;
    }

    /** The cross product of transactions and depths; depths below 1 are dropped. */
    method AddDepthAlarms(txids: seq<Hash32>, depths: seq<U32>)
      modifies this`alarms
      ensures alarms == old(alarms) + Product(txids, ValidDepths(depths))
    {
      hide ValidDepths;
      var valid := ValidDepths(depths);
      for i := 0 to |txids|
        invariant alarms == old(alarms) + Product(txids[..i], valid)
      {
        for j := 0 to |valid|
          invariant alarms == old(alarms) + Product(txids[..i], valid) + Row(txids[i], valid[..j])
        {
          assert valid[..j + 1] == valid[..j] + [valid[j]];
          alarms := alarms + {Alarm(txids[i], valid[j])};
        }
        assert valid[..|valid|] == valid;
        ProductNext(txids, i, valid);
      }
      assert txids[..|txids|] == txids;
    }

    method RemoveDepthAlarms(txids: seq<Hash32>, depths: seq<U32>)
      modifies this`alarms
      ensures alarms == old(alarms) - Product(txids, depths)
    {
      for i := 0 to |txids|
        invariant alarms == old(alarms) - Product(txids[..i], depths)
      {
        for j := 0 to |depths|
          invariant alarms == old(alarms) - Product(txids[..i], depths) - Row(txids[i], depths[..j])
        {
          assert depths[..j + 1] == depths[..j] + [depths[j]];
          alarms := alarms - {Alarm(txids[i], depths[j])};
        }
        assert depths[..|depths|] == depths;
        ProductNext(txids, i, depths);
      }
      assert txids[..|txids|] == txids;
    }

    /** One descriptor's window and history. */
    function SlotOf(d: string): DescriptorSlides.Slot
      reads this`descriptors, this`descriptorHistory
    {
      DescriptorSlides.Slot(if d in descriptors then Some(descriptors[d]) else None,
                            if d in descriptorHistory then descriptorHistory[d] else [])
    }

    method AddDescriptor(d: string, win: Window)
      modifies this`descriptors, this`descriptorHistory
      ensures SlotOf(d) == DescriptorSlides.Slide(old(SlotOf(d)), win)
      ensures descriptors == old(descriptors)[d := win]
      ensures forall x :: x != d ==> SlotOf(x) == old(SlotOf(x))
    {
      var had := d in descriptors;
      var prev := if had then descriptors[d] else win;
      descriptors := descriptors[d := win];
      if had && prev != win {
        var history := DescriptorSlides.Filter(if d in descriptorHistory then descriptorHistory[d] else [], win);
        history := history + [prev];
        if |history| > DescriptorSlides.HISTORY { history := history[1..]; }
        descriptorHistory := descriptorHistory[d := history];
      } else if !had {
        descriptorHistory := descriptorHistory - {d};
      }
    }

    method RemoveDescriptor(d: string)
      modifies this`descriptors, this`descriptorHistory
      ensures SlotOf(d) == DescriptorSlides.VACANT && descriptors == old(descriptors) - {d}
      ensures forall x :: x != d ==> SlotOf(x) == old(SlotOf(x))
    {
      descriptors := descriptors - {d};
      descriptorHistory := descriptorHistory - {d};
    }

    method ForgetWindow(d: string, refused: Window, kept: bool)
      modifies this`descriptors, this`descriptorHistory
      ensures SlotOf(d) == DescriptorSlides.Refuse(old(SlotOf(d)), refused, kept)
      ensures forall x :: x != d ==> SlotOf(x) == old(SlotOf(x))
    {
      var history := if d in descriptorHistory then descriptorHistory[d] else [];
      if d in descriptors && descriptors[d] == refused {
        if kept && |history| > 0 {
          descriptors := descriptors[d := Last(history)];
          history := Pop(history);
        } else if !kept {
          descriptors := descriptors - {d};
          history := [];
        }
      } else {
        history := DescriptorSlides.Filter(history, refused);
      }
      if |history| == 0 {
        descriptorHistory := descriptorHistory - {d};
      } else {
        descriptorHistory := descriptorHistory[d := history];
      }
    }

    /** A valid bucket is held masked; an invalid pair stays as it is until rendering. */
    method AddScriptPrefixes(ps: seq<Prefix>)
      modifies this`prefixes
      ensures prefixes == old(prefixes) + SafelyMasked(ps)
    {
      hide Mask, ValidPrefix, MaskSafe;
      for i := 0 to |ps|
        invariant prefixes == old(prefixes) + SafelyMasked(ps[..i])
      {
        SafelyMaskedNext(ps, i);
        prefixes := prefixes + {MaskSafe(ps[i])};
      }
      assert ps[..|ps|] == ps;
    }

    method RemoveScriptPrefixes(ps: seq<Prefix>)
      modifies this`prefixes
      ensures prefixes == old(prefixes) - SafelyMasked(ps)
    {
      hide Mask, ValidPrefix, MaskSafe;
      for i := 0 to |ps|
        invariant prefixes == old(prefixes) - SafelyMasked(ps[..i])
      {
        SafelyMaskedNext(ps, i);
        prefixes := prefixes - {MaskSafe(ps[i])};
      }
      assert ps[..|ps|] == ps;
    }

    /** Refused as a whole when it could take the set over its cap. */
    method AddSilentPayments(targets: seq<Target>) returns (ok: bool)
      modifies this`silent
      ensures ok <==> |old(silent)| + NewTargets(old(silent), targets) <= MAX_SP_TARGETS
      ensures silent == if ok then PutAll(old(silent), Ids(targets), targets) else old(silent)
    {
      hide PutAll, Ids, NewTargets;
      var projected := Projected(targets);
      if projected > MAX_SP_TARGETS { return false; }
      PutNothing(silent, Ids(targets[..0]), targets[..0]);
      for i := 0 to |targets|
        invariant silent == PutAll(old(silent), Ids(targets[..i]), targets[..i])
      {
        PutNext(old(silent), targets, i);
        silent := silent[targets[i].id := targets[i]];
      }
      assert targets[..|targets|] == targets;
      ok := true;
    }

    method Projected(targets: seq<Target>) returns (n: nat)
      ensures n == |silent| + NewTargets(silent, targets)
    {
      n := |silent|;
      for i := 0 to |targets|
        invariant n == |silent| + NewTargets(silent, targets[..i])
      {
        assert Pop(targets[..i + 1]) == targets[..i];
        if targets[i].id !in silent { n := n + 1; }
      }
      assert targets[..|targets|] == targets;
    }

    method RemoveSilentPayments(ids: seq<Bytes>)
      modifies this`silent
      ensures silent == old(silent) - SetOf(ids)
    {
      for i := 0 to |ids|
        invariant silent == old(silent) - SetOf(ids[..i])
      {
        SetOfNext(ids, i);
        silent := silent - {ids[i]};
      }
      assert ids[..|ids|] == ids;
    }

    /** What the node refused goes, and nothing else; a descriptor falls back. */
    method ForgetRejected(r: Refusal)
      modifies this`scripts, this`outpoints, this`lifecycles, this`alarms, this`prefixes, this`silent
      modifies this`descriptors, this`descriptorHistory
      ensures scripts == old(scripts) - SetOf(r.scripts) && outpoints == old(outpoints) - SetOf(r.outpoints)
      ensures lifecycles == old(lifecycles) - SetOf(r.txids) && alarms == old(alarms) - SetOf(r.alarms)
      ensures prefixes == old(prefixes) - SafelyMasked(r.prefixes) && silent == old(silent) - SetOf(r.ids)
      ensures forall d :: SlotOf(d) == SlotWithout(old(SlotOf(d)), d, r)
    {
      hide SetOf, SafelyMasked, SlotOf, DescriptorSlides.Refuse;
      ForgetItems(r);
      if r.window.Some? { ForgetWindow(r.window.value.descriptor, r.window.value.window, r.window.value.kept); }
    }

    method ForgetItems(r: Refusal)
      modifies this`scripts, this`outpoints, this`lifecycles, this`alarms, this`prefixes, this`silent
      ensures scripts == old(scripts) - SetOf(r.scripts) && outpoints == old(outpoints) - SetOf(r.outpoints)
      ensures lifecycles == old(lifecycles) - SetOf(r.txids) && alarms == old(alarms) - SetOf(r.alarms)
      ensures prefixes == old(prefixes) - SafelyMasked(r.prefixes) && silent == old(silent) - SetOf(r.ids)
    {
      hide SetOf, SafelyMasked;
      RemoveScripts(r.scripts);
      RemoveOutpoints(r.outpoints);
      RemoveTxLifecycle(r.txids);
      RemoveAlarms(r.alarms);
      RemoveScriptPrefixes(r.prefixes);
      RemoveSilentPayments(r.ids);
    }

    method RemoveAlarms(refused: seq<Alarm>)
      modifies this`alarms
      ensures alarms == old(alarms) - SetOf(refused)
    {
      for i := 0 to |refused|
        invariant alarms == old(alarms) - SetOf(refused[..i])
      {
        SetOfNext(refused, i);
        alarms := alarms - {refused[i]};
      }
      assert refused[..|refused|] == refused;
    }

    /** One edit, or nothing when it is refused. */
    method Change(e: Edit) returns (ok: bool)
      modifies this
      ensures ok <==> Mutate(old(View()), e).Some?
      ensures View() == if ok then Mutate(old(View()), e).value else old(View())
      ensures forall d :: SlotOf(d) == SlotAfter(old(SlotOf(d)), d, e)
    {
      hide PutAll, AllAt, Ids, Product, Masked, NewTargets, HashesOf, FloorsOf, SetOf, ValidDepths, SafelyMasked;
      hide SlotOf, DescriptorSlides.Slide;
      ok := true;
      if e.WatchPrefixes? || e.DropPrefixes? {
        ok := ChangePrefixes(e);
      } else if e.WatchSilent? {
        ok := AddSilentPayments(e.targets);
      } else if e.WatchLifecycles? || e.DropLifecycles? || e.ArmAlarms? || e.DisarmAlarms? {
        ChangeTransactions(e);
      } else {
        ChangeItems(e);
      }
    }

    method ChangePrefixes(e: Edit) returns (ok: bool)
      requires e.WatchPrefixes? || e.DropPrefixes?
      modifies this`prefixes
      ensures ok <==> Mutate(old(View()), e).Some?
      ensures View() == if ok then Mutate(old(View()), e).value else old(View())
    {
      hide Masked, SetOf, SafelyMasked, AllValid;
      ok := AllValid(e.prefixes);
      if !ok { return; }
      SafelyMaskedValid(e.prefixes);
      if e.WatchPrefixes? {
        AddScriptPrefixes(e.prefixes);
      } else {
        RemoveScriptPrefixes(e.prefixes);
      }
    }

    method ChangeItems(e: Edit)
      requires !e.WatchPrefixes? && !e.DropPrefixes? && !e.WatchSilent?
      requires !e.WatchLifecycles? && !e.DropLifecycles? && !e.ArmAlarms? && !e.DisarmAlarms?
      modifies this
      ensures View() == Mutate(old(View()), e).value
      ensures forall d :: SlotOf(d) == SlotAfter(old(SlotOf(d)), d, e)
    {
      hide PutAll, AllAt, Ids, Product, Masked, NewTargets, HashesOf, FloorsOf, SetOf, ValidDepths;
      hide SlotOf, DescriptorSlides.Slide;
      match e
      case WatchScripts(items) => AddScripts(items);
      case DropScripts(hs) => RemoveScripts(hs);
      case WatchOutpoints(os) => AddOutpoints(os);
      case DropOutpoints(os) => RemoveOutpoints(os);
      case WatchDescriptor(d, win) => AddDescriptor(d, win);
      case DropDescriptor(d) => RemoveDescriptor(d);
      case DropSilent(ids) => RemoveSilentPayments(ids);
      case Categories(c) => categories := Some(c);
      case RawTx(r) => rawTx := Some(r);
    }

    method ChangeTransactions(e: Edit)
      requires e.WatchLifecycles? || e.DropLifecycles? || e.ArmAlarms? || e.DisarmAlarms?
      modifies this`lifecycles, this`alarms
      ensures View() == Mutate(old(View()), e).value
    {
      hide AllAt, Product, SetOf, ValidDepths;
      match e
      case WatchLifecycles(close, ts) => AddTxLifecycle(close, ts);
      case DropLifecycles(ts) => RemoveTxLifecycle(ts);
      case ArmAlarms(ts, ds) => AddDepthAlarms(ts, ds);
      case DisarmAlarms(ts, ds) => RemoveDepthAlarms(ts, ValidDepths(ds));
    }
  }

  function Row(t: Hash32, ds: seq<U32>): set<Alarm> { set d | d in ds :: Alarm(t, d) }

  lemma PutNext(m: map<Bytes, Target>, ts: seq<Target>, i: nat)
    requires i < |ts|
    ensures PutAll(m, Ids(ts[..i + 1]), ts[..i + 1]) == PutAll(m, Ids(ts[..i]), ts[..i])[ts[i].id := ts[i]]
  {
    var t := ts[..i + 1];
    assert Pop(t) == ts[..i] && Last(t) == ts[i];
    assert Pop(Ids(t)) == Ids(Pop(t)) && Last(Ids(t)) == ts[i].id;
  }

  lemma ProductNext(ts: seq<Hash32>, i: nat, ds: seq<U32>)
    requires i < |ts|
    ensures Product(ts[..i + 1], ds) == Product(ts[..i], ds) + Row(ts[i], ds)
  {
    assert ts[..i + 1] == ts[..i] + [ts[i]];
  }

  lemma SetOfNext<T>(s: seq<T>, i: nat)
    requires i < |s|
    ensures SetOf(s[..i + 1]) == SetOf(s[..i]) + {s[i]}
  {
    assert s[..i + 1] == s[..i] + [s[i]];
  }

  function SafelyMasked(ps: seq<Prefix>): set<Prefix> { set p | p in ps :: MaskSafe(p) }

  lemma SafelyMaskedNext(ps: seq<Prefix>, i: nat)
    requires i < |ps|
    ensures SafelyMasked(ps[..i + 1]) == SafelyMasked(ps[..i]) + {MaskSafe(ps[i])}
  {
    hide MaskSafe;
    assert ps[..i + 1] == ps[..i] + [ps[i]];
  }

  lemma {:induction false} SafelyMaskedValid(ps: seq<Prefix>)
    requires AllValid(ps)
    ensures SafelyMasked(ps) == SetOf(Masked(ps))
  {
    hide Mask, ValidPrefix;
    if ps != [] {
      var rest := Pop(ps);
      SafelyMaskedValid(rest);
      SafelyMaskedNext(ps, |ps| - 1);
      assert ps[..|ps|] == ps && ps[..|ps| - 1] == rest;
      assert Masked(ps) == Masked(rest) + [Mask(Last(ps))];
    }
  }

  // ---- The watch -----------------------------------------------------------------------

  class ResilientWatch {
    const mirror: WatchSet
    var handle: Option<seq<Control>>    // the installed stream: what was sent on it

    /** The object stands where the state machine does. */
    ghost predicate Shows(w: Watch)
      reads this, mirror
    {
      mirror.View() == w.mirror && handle == match w.stream { case None => None case Some(s) => Some(s.sent) }
    }

    constructor ()
      ensures Shows(Watch(BLANK, None)) && fresh(mirror)
    {
      mirror := new WatchSet();
      handle := None;
    }

    /** Apply an edit and, when connected, send its message. */
    method EditErr(e: Edit, send: Send, ghost w: Watch) returns (ok: bool)
      requires Shows(w)
      modifies this, mirror
      ensures Shows(Next(w, Change(e, send))) && (ok <==> Mutate(w.mirror, e).Some?)
    {
      hide Mutate, Sends;
      ok := mirror.Change(e);
      if !ok || handle.None? { return; }
      var msgs := Sends(e);
      if send.StreamClosed? && msgs != [] {
        Teardown();
        return;
      }
      handle := Some(handle.value + msgs);
    }

    method Teardown()
      modifies this`handle
      ensures handle == None
    {
      handle := None;
    }

    /** Open a stream, replay the mirror on it and install it; the new stream fails after
        `sends` messages, and is then not installed. */
    method ConnectOnce(sends: nat, reanchor: bool, ghost w: Watch) returns (ok: bool)
      requires Shows(w) && handle == None
      modifies this`handle
      ensures Shows(Next(w, Reconnect(sends, reanchor))) && ok == handle.Some?
    {
      hide Rendered;
      var msgs := ControlMessages(mirror.View());
      if msgs.None? { return false; }
      var sent: seq<Control> := [];
      for i := 0 to |msgs.value|
        invariant sent == msgs.value[..i] && i <= sends
        invariant handle == None
      {
        if i == sends { return false; }
        sent := sent + [msgs.value[i]];
      }
      assert sent == msgs.value && sent + [] == sent;
      if reanchor {
        if |sent| == sends { return false; }
        sent := sent + [SetCursor];
      }
      handle := Some(sent);
      ok := true;
    }

    /** Edits, losses and reconnects in any order. */
    method Run(events: seq<Event>, ghost w: Watch)
      requires Shows(w)
      modifies this, mirror
      ensures Shows(WatchRun.Run(w, events))
    {
      hide Shows;
      for i := 0 to |events|
        invariant Shows(WatchRun.Run(w, events[..i]))
      {
        assert Pop(events[..i + 1]) == events[..i];
        ghost var before := WatchRun.Run(w, events[..i]);
        match events[i]
        case Change(e, send) =>
          var _ := EditErr(e, send, before);
        case Lost =>
          Lose(before);
        case Reconnect(n, r) =>
          Lose(before);
          var _ := ConnectOnce(n, r, Next(before, Lost));
      }
      assert events[..|events|] == events;
    }

    method Lose(ghost w: Watch)
      requires Shows(w)
      modifies this`handle
      ensures Shows(Next(w, Lost)) && handle == None
    {
      Teardown();
    }
  }
}
