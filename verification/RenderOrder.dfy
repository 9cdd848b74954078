/** The order in which the mirror is replayed: settings first, then kind by kind, and inside a
    kind by key, so that equal mirrors give equal messages. */
module RenderOrder {
  import opened ScriptTypes
  import opened Order
  import opened DepthKey
  import opened Mirror
  import opened Render

  function Kind(c: Control): nat {
    match c
    case SetCategories(_) => 0
    case SetWatchOptions(_) => 1
    case AddScripts(_, _) => 2
    case AddOutpoints(_) => 3
    case AddTransactions(_, depths, _) => if depths == [] then 4 else 5
    case AddDescriptor(_, _) => 6
    case AddScriptPrefixes(_) => 7
    case AddSilentPayments(_) => 8
    case _ => 9
  }

  /** One message comes before another: by kind, else by auto-close depth, by the key of its
      depths, or by descriptor. */
  predicate Earlier(a: Control, b: Control) {
    || Kind(a) < Kind(b)
    || (Kind(a) == Kind(b) == 4 && a.autoClose < b.autoClose)
    || (Kind(a) == Kind(b) == 5 && LexLess(RankText(DepthSetKey(a.minDepths)), RankText(DepthSetKey(b.minDepths))))
    || (Kind(a) == Kind(b) == 6 && LexLess(RankText(a.descriptor), RankText(b.descriptor)))
  }

  predicate Ascending(msgs: seq<Control>) {
    forall i, j :: 0 <= i < j < |msgs| ==> Earlier(msgs[i], msgs[j])
  }

  /** The items of a message are in ascending order of their bytes. */
  predicate Listed(c: Control) {
    match c
    case AddScripts(ks, _) => Sorted(ks, RankHash)
    case AddOutpoints(os) => Sorted(os, RankOutPoint)
    case AddTransactions(ts, _, _) => Sorted(ts, RankHash)
    case _ => true
  }

  predicate Between(msgs: seq<Control>, lo: nat, hi: nat) {
    forall i :: 0 <= i < |msgs| ==> lo <= Kind(msgs[i]) <= hi && Listed(msgs[i])
  }

  lemma ByKind(a: Control, b: Control)
    requires Kind(a) < Kind(b)
    ensures Earlier(a, b)
  {
  }

  lemma Append(a: seq<Control>, b: seq<Control>, mid: nat, hi: nat)
    requires Ascending(a) && Ascending(b) && Between(a, 0, mid) && Between(b, mid + 1, hi) && mid < hi
    ensures Ascending(a + b) && Between(a + b, 0, hi)
  {
    hide Kind, Earlier, Listed;
    var s := a + b;
    forall i, j | 0 <= i < j < |s| ensures Earlier(s[i], s[j]) {
      if i < |a| <= j { ByKind(a[i], b[j - |a|]); }
    }
  }

  lemma One(c: Control, k: nat)
    requires Kind(c) == k && Listed(c)
    ensures Ascending([c]) && Between([c], k, k) && Ascending([]) && Between([], k, k)
  {
    hide Earlier, Kind, Listed;
  }

  lemma {:induction false} LifecycleAt(lifecycles: map<Hash32, U32>, depths: seq<U32>, i: nat)
    requires i < |depths|
    ensures var ms := LifecycleMsgs(lifecycles, depths);
            |ms| == |depths| && ms[i] == AddTransactions(TxidsAt(lifecycles, depths[i]), [], depths[i])
  {
    hide TxidsAt;
    if i < |depths| - 1 {
      LifecycleAt(lifecycles, Pop(depths), i);
    } else if i > 0 {
      LifecycleAt(lifecycles, Pop(depths), i - 1);
    }
  }

  lemma LexNumber(a: U32, b: U32)
    requires LexLess(RankNumber(a), RankNumber(b))
    ensures a < b
  {
    assert [a][1..] == [] && [b][1..] == [];
  }

  lemma LifecyclesAscend(lifecycles: map<Hash32, U32>, depths: seq<U32>)
    requires Sorted(depths, RankNumber)
    ensures Ascending(LifecycleMsgs(lifecycles, depths)) && Between(LifecycleMsgs(lifecycles, depths), 4, 4)
  {
    hide TxidsAt, LifecycleMsgs, LexLess, RankNumber;
    var ms := LifecycleMsgs(lifecycles, depths);
    if depths == [] {
      NoMessages(lifecycles, {}, map[]);
    } else {
      LifecycleAt(lifecycles, depths, 0);
      forall i | 0 <= i < |ms| ensures Kind(ms[i]) == 4 && Listed(ms[i]) {
        LifecycleAt(lifecycles, depths, i);
        TxidsListed(lifecycles, depths[i]);
      }
      forall i, j | 0 <= i < j < |ms| ensures Earlier(ms[i], ms[j]) {
        LifecycleAt(lifecycles, depths, i);
        LifecycleAt(lifecycles, depths, j);
        LexNumber(depths[i], depths[j]);
      }
    }
  }

  lemma TxidsListed(lifecycles: map<Hash32, U32>, depth: U32)
    ensures Sorted(TxidsAt(lifecycles, depth), RankHash)
  {
  }

  lemma NoMessages(lifecycles: map<Hash32, U32>, alarms: set<Alarm>, descriptors: map<string, Window>)
    ensures LifecycleMsgs(lifecycles, []) == [] && AlarmMsgs(alarms, []) == [] && DescriptorMsgs(descriptors, []) == []
  {
  }

  lemma {:induction false} DescriptorAt(descriptors: map<string, Window>, ds: seq<string>, i: nat)
    requires i < |ds| && forall d :: d in ds ==> d in descriptors
    ensures var ms := DescriptorMsgs(descriptors, ds);
            |ms| == |ds| && ms[i].AddDescriptor? && ms[i].descriptor == ds[i]
  {
    if i < |ds| - 1 {
      DescriptorAt(descriptors, Pop(ds), i);
    } else if i > 0 {
      DescriptorAt(descriptors, Pop(ds), i - 1);
    }
  }

  lemma DescriptorsAscend(descriptors: map<string, Window>, ds: seq<string>)
    requires Sorted(ds, RankText) && forall d :: d in ds ==> d in descriptors
    ensures Ascending(DescriptorMsgs(descriptors, ds)) && Between(DescriptorMsgs(descriptors, ds), 6, 6)
  {
    hide DescriptorMsgs, LexLess, RankText;
    var ms := DescriptorMsgs(descriptors, ds);
    if ds == [] {
      NoMessages(map[], {}, descriptors);
    } else {
      DescriptorAt(descriptors, ds, 0);
      forall i | 0 <= i < |ms| ensures Kind(ms[i]) == 6 && Listed(ms[i]) { DescriptorAt(descriptors, ds, i); }
      forall i, j | 0 <= i < j < |ms| ensures Earlier(ms[i], ms[j]) {
        DescriptorAt(descriptors, ds, i);
        DescriptorAt(descriptors, ds, j);
      }
    }
  }

  /** A message of alarms has depths, and they are the ones its key spells. */
  lemma KeySpelled(alarms: set<Alarm>, key: string)
    requires SoundAlarms(alarms) && key in AlarmKeys(alarms)
    ensures DepthsUnder(alarms, key) != [] && DepthSetKey(DepthsUnder(alarms, key)) == key
  {
    hide ValidDepths, SoundAlarms;
    KeyHasDepth(alarms, key);
    assert DepthsUnder(alarms, key) != [] by { NoDepths(); }
    var ts := TxidsUnder(alarms, key);
    assert Last(ts) in ts;
    assert KeyAt(alarms, Last(ts)) == key;
  }

  lemma {:induction false} AlarmAt(alarms: set<Alarm>, keys: seq<string>, i: nat)
    requires i < |keys|
    ensures var ms := AlarmMsgs(alarms, keys);
            |ms| == |keys| && ms[i] == AddTransactions(TxidsUnder(alarms, keys[i]), DepthsUnder(alarms, keys[i]), 0)
  {
    hide DepthsUnder, TxidsUnder;
    if i < |keys| - 1 {
      AlarmAt(alarms, Pop(keys), i);
    } else if i > 0 {
      AlarmAt(alarms, Pop(keys), i - 1);
    }
  }

  lemma UnderListed(alarms: set<Alarm>, key: string)
    ensures Sorted(TxidsUnder(alarms, key), RankHash)
  {
  }

  lemma AlarmsAscend(alarms: set<Alarm>, keys: seq<string>)
    requires SoundAlarms(alarms) && Sorted(keys, RankText) && forall k :: k in keys ==> k in AlarmKeys(alarms)
    ensures Ascending(AlarmMsgs(alarms, keys)) && Between(AlarmMsgs(alarms, keys), 5, 5)
  {
    hide LexLess, RankText, DepthsUnder, TxidsUnder, AlarmKeys, DepthSetKey, SoundAlarms, AlarmMsgs;
    var ms := AlarmMsgs(alarms, keys);
    if keys == [] {
      NoMessages(map[], alarms, map[]);
    } else {
      AlarmAt(alarms, keys, 0);
      forall i | 0 <= i < |ms| ensures Kind(ms[i]) == 5 && Listed(ms[i]) && DepthSetKey(ms[i].minDepths) == keys[i] {
        AlarmAt(alarms, keys, i);
        KeySpelled(alarms, keys[i]);
        UnderListed(alarms, keys[i]);
      }
    }
  }

  /** Every rendering is in this order; so no two of its messages could be exchanged. */
  lemma RenderedAscends(m: MirrorSet)
    requires Sound(m) && Renders(m)
    ensures Ascending(Rendered(m).value) && Between(Rendered(m).value, 0, 8)
  {
    hide Kind, Earlier, LexLess, Ascending, Between, LifecycleMsgs, AlarmMsgs, DescriptorMsgs, AlarmKeys, ScriptMsgs,
      OutpointMsgs, PrefixMsgs, SilentMsgs, OptionMsgs;
    hide SoundAlarms, SoundPrefixes, SoundSilent;
    SinglesAscend(m);
    LifecyclesAscend(m.lifecycles, Numbers(m.lifecycles.Values));
    AlarmsAscend(m.alarms, Texts(AlarmKeys(m.alarms)));
    DescriptorsAscend(m.descriptors, Texts(m.descriptors.Keys));
    var l, a, d := LifecycleMsgs(m.lifecycles, Numbers(m.lifecycles.Values)),
      AlarmMsgs(m.alarms, Texts(AlarmKeys(m.alarms))), DescriptorMsgs(m.descriptors, Texts(m.descriptors.Keys));
    var s := OptionMsgs(m);
    Append(s, ScriptMsgs(m.scripts), 1, 2);
    s := s + ScriptMsgs(m.scripts);
    Append(s, OutpointMsgs(m.outpoints), 2, 3);
    s := s + OutpointMsgs(m.outpoints);
    Append(s, l, 3, 4);
    Append(s + l, a, 4, 5);
    Append(s + l + a, d, 5, 6);
    s := s + l + a + d;
    Append(s, PrefixMsgs(m.prefixes), 6, 7);
    Append(s + PrefixMsgs(m.prefixes), SilentMsgs(m.silent), 7, 8);
  }

  lemma SinglesAscend(m: MirrorSet)
    requires Renders(m)
    ensures Ascending(OptionMsgs(m)) && Between(OptionMsgs(m), 0, 1)
    ensures Ascending(ScriptMsgs(m.scripts)) && Between(ScriptMsgs(m.scripts), 2, 2)
    ensures Ascending(OutpointMsgs(m.outpoints)) && Between(OutpointMsgs(m.outpoints), 3, 3)
    ensures Ascending(PrefixMsgs(m.prefixes)) && Between(PrefixMsgs(m.prefixes), 7, 7)
    ensures Ascending(SilentMsgs(m.silent)) && Between(SilentMsgs(m.silent), 8, 8)
  {
    hide Ascending, Between, Earlier, OptionMsgs, Hashes, Points, Buckets, Identities, FloorsAt, TargetsOf, Masked;
    OptionsAscend(m);
    var ks := Hashes(m.scripts.Keys);
    One(AddScripts(ks, if Floored(m.scripts) then FloorsAt(m.scripts, ks) else []), 2);
    One(AddOutpoints(Points(m.outpoints)), 3);
    if m.prefixes == {} {
      One(AddScriptPrefixes([]), 7);
    } else {
      One(PrefixMsgs(m.prefixes)[0], 7);
    }
    One(AddSilentPayments(TargetsOf(m.silent, Identities(m.silent.Keys))), 8);
  }

  lemma OptionsAscend(m: MirrorSet)
    ensures Ascending(OptionMsgs(m)) && Between(OptionMsgs(m), 0, 1)
  {
    hide LexLess;
  }
}
