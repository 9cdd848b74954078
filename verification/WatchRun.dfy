/** The watch as a state machine: edits, lost streams and reconnects in any order, and what
    the node holds of the mirror after them. */
module WatchRun {
  import opened ScriptTypes
  import opened Mirror
  import opened Render
  import RenderOrder

  datatype Send = Delivered | StreamClosed
  datatype Event = Change(edit: Edit, send: Send) | Lost | Reconnect(sends: nat, reanchor: bool)

  /** An installed stream: what was sent on it, the lifecycles of the mirror when it was
      installed, and the edits since. */
  datatype Stream = Stream(sent: seq<Control>, base: map<Hash32, U32>, edits: seq<Edit>)

  datatype Watch = Watch(mirror: MirrorSet, stream: Option<Stream>)

  const BLANK: MirrorSet := Watches(map[], {}, map[], {}, map[], {}, map[], None, None)

  /** The stream that a reconnect installs when `sends` messages get through. */
  ghost function Connected(m: MirrorSet, sends: nat, reanchor: bool): Option<Stream> {
    match Rendered(m)
    case None => None
    case Some(msgs) =>
      var all := msgs + if reanchor then [SetCursor] else [];
      if |all| <= sends then Some(Stream(all, m.lifecycles, [])) else None
  }

  /** The stream after an edit that the mirror took. */
  function Sent(s: Stream, e: Edit, send: Send): Option<Stream> {
    if send.StreamClosed? && Sends(e) != [] then None
    else Some(Stream(s.sent + Sends(e), s.base, s.edits + [e]))
  }

  ghost function Next(w: Watch, ev: Event): Watch {
    match ev
    case Lost => Watch(w.mirror, None)
    case Reconnect(sends, reanchor) => Watch(w.mirror, Connected(w.mirror, sends, reanchor))
    case Change(e, send) =>
      match Mutate(w.mirror, e)
      case None => w
      case Some(m) => Watch(m, if w.stream.None? then None else Sent(w.stream.value, e, send))
  }

  ghost function Run(w: Watch, events: seq<Event>): Watch {
    if events == [] then w else Next(Run(w, Pop(events)), Last(events))
  }

  // ---- The depth of a lifecycle, told from the edits -----------------------------------

  predicate Drops(e: Edit, t: Hash32) { e.DropLifecycles? && t in e.txids }
  predicate Asks(e: Edit, t: Hash32) { e.WatchLifecycles? && t in e.txids }

  /** The edits after the last one that drops the transaction. */
  function SinceDrop(edits: seq<Edit>, t: Hash32): seq<Edit> {
    if edits == [] || Drops(Last(edits), t) then [] else SinceDrop(Pop(edits), t) + [Last(edits)]
  }

  predicate Dropped(edits: seq<Edit>, t: Hash32) { exists i :: 0 <= i < |edits| && Drops(edits[i], t) }

  function FirstAsk(edits: seq<Edit>, t: Hash32): Option<U32> {
    if edits == [] then None else if Asks(edits[0], t) then Some(edits[0].autoClose) else FirstAsk(edits[1..], t)
  }

  function LastAsk(edits: seq<Edit>, t: Hash32): Option<U32> {
    if edits == [] then None else if Asks(Last(edits), t) then Some(Last(edits).autoClose) else LastAsk(Pop(edits), t)
  }

  function Lookup(m: map<Hash32, U32>, t: Hash32): Option<U32> { if t in m then Some(m[t]) else None }

  /** The depth a transaction had when the stream was installed, unless dropped since. */
  ghost function Installed(s: Stream, t: Hash32): Option<U32> {
    if Dropped(s.edits, t) then None else Lookup(s.base, t)
  }

  /** The first depth asked for since the stream was installed or the transaction dropped. */
  ghost function FirstDepth(s: Stream, t: Hash32): Option<U32> {
    if Installed(s, t).Some? then Installed(s, t) else FirstAsk(SinceDrop(s.edits, t), t)
  }

  /** The last one. */
  ghost function LastDepth(s: Stream, t: Hash32): Option<U32> {
    var asked := LastAsk(SinceDrop(s.edits, t), t);
    if asked.Some? then asked else Installed(s, t)
  }

  lemma {:induction false} FirstAskNext(edits: seq<Edit>, e: Edit, t: Hash32)
    ensures FirstAsk(edits + [e], t) ==
            if FirstAsk(edits, t).Some? then FirstAsk(edits, t) else if Asks(e, t) then Some(e.autoClose) else None
  {
    if edits == [] {
      assert edits + [e] == [e] && [e][1..] == [];
    } else {
      FirstAskNext(edits[1..], e, t);
      assert (edits + [e])[1..] == edits[1..] + [e];
    }
  }

  lemma DroppedNext(edits: seq<Edit>, e: Edit, t: Hash32)
    ensures Dropped(edits + [e], t) <==> Dropped(edits, t) || Drops(e, t)
  {
    var all := edits + [e];
    if Dropped(edits, t) {
      var i :| 0 <= i < |edits| && Drops(edits[i], t);
      assert Drops(all[i], t);
    }
    if Drops(e, t) { assert Drops(all[|edits|], t); }
    if Dropped(all, t) {
      var i :| 0 <= i < |all| && Drops(all[i], t);
      if i < |edits| { assert Drops(edits[i], t); }
    }
  }

  /** Another edit moves the first depth as it moves the node's, the last as the mirror's. */
  lemma DepthsNext(s: Stream, e: Edit, sent: seq<Control>, node: map<Hash32, U32>, mirror: map<Hash32, U32>, t: Hash32)
    requires FirstDepth(s, t) == Lookup(node, t) && LastDepth(s, t) == Lookup(mirror, t)
    requires node.Keys == mirror.Keys
    ensures FirstDepth(Stream(sent, s.base, s.edits + [e]), t) == Lookup(DepthsAfter(node, e), t)
    ensures LastDepth(Stream(sent, s.base, s.edits + [e]), t) == Lookup(MirrorDepthsAfter(mirror, e), t)
  {
    hide DepthsAfter, MirrorDepthsAfter;
    LookupAfter(node, mirror, e, t);
    var u := Stream(sent, s.base, s.edits + [e]);
    assert Pop(u.edits) == s.edits && Last(u.edits) == e;
    DroppedNext(s.edits, e, t);
    if !Drops(e, t) {
      var since := SinceDrop(s.edits, t);
      assert SinceDrop(u.edits, t) == since + [e];
      FirstAskNext(since, e, t);
      assert Pop(since + [e]) == since && Last(since + [e]) == e;
    }
  }

  /** The lifecycles of the mirror after an edit. */
  function MirrorDepthsAfter(held: map<Hash32, U32>, e: Edit): map<Hash32, U32> {
    match e
    case WatchLifecycles(close, ts) => held + AllAt(ts, close)
    case DropLifecycles(ts) => held - SetOf(ts)
    case _ => held
  }

  lemma MirrorDepths(m: MirrorSet, e: Edit)
    requires Mutate(m, e).Some?
    ensures Mutate(m, e).value.lifecycles == MirrorDepthsAfter(m.lifecycles, e)
  {
    hide PutAll, SetOf, AllAt, Product, ValidDepths, Masked, NewTargets, Ids, HashesOf, FloorsOf, AllValid;
    var after := Mutate(m, e).value;
    match e
    case WatchLifecycles(close, ts) => assert after == m.(lifecycles := m.lifecycles + AllAt(ts, close));
    case DropLifecycles(ts) => assert after == m.(lifecycles := m.lifecycles - SetOf(ts));
    case WatchScripts(items) => assert after == m.(scripts := after.scripts);
    case DropScripts(_) => assert after == m.(scripts := after.scripts);
    case WatchSilent(_) => assert after == m.(silent := after.silent);
    case DropSilent(_) => assert after == m.(silent := after.silent);
    case WatchPrefixes(_) => assert after == m.(prefixes := after.prefixes);
    case DropPrefixes(_) => assert after == m.(prefixes := after.prefixes);
    case _ =>
  }

  lemma LookupAfter(node: map<Hash32, U32>, mirror: map<Hash32, U32>, e: Edit, t: Hash32)
    ensures Lookup(DepthsAfter(node, e), t) ==
            if Drops(e, t) then None
            else if t in node then Lookup(node, t) else if Asks(e, t) then Some(e.autoClose) else None
    ensures Lookup(MirrorDepthsAfter(mirror, e), t) ==
            if Drops(e, t) then None else if Asks(e, t) then Some(e.autoClose) else Lookup(mirror, t)
  {
  }

  // ---- What every event keeps ----------------------------------------------------------

  /** The node holds the mirror, with the first depth of every lifecycle where the mirror has
      the last. */
  ghost predicate Tracks(w: Watch) {
    w.stream.Some? ==>
      var s, node := w.stream.value, Fold(w.stream.value.sent, EMPTY);
      && node == AtNode(w.mirror, node.lifecycles)
      && node.lifecycles.Keys == w.mirror.lifecycles.Keys
      && forall t :: FirstDepth(s, t) == Lookup(node.lifecycles, t) && LastDepth(s, t) == Lookup(w.mirror.lifecycles, t)
  }

  lemma EditKeepsKeys(node: map<Hash32, U32>, mirror: map<Hash32, U32>, e: Edit)
    requires node.Keys == mirror.Keys
    ensures DepthsAfter(node, e).Keys == MirrorDepthsAfter(mirror, e).Keys
  {
    match e
    case WatchLifecycles(close, ts) => assert (AllAt(ts, close) + node).Keys == (mirror + AllAt(ts, close)).Keys;
    case DropLifecycles(ts) => assert (node - SetOf(ts)).Keys == (mirror - SetOf(ts)).Keys;
    case _ =>
  }

  lemma SentTracks(w: Watch, e: Edit)
    requires Tracks(w) && w.stream.Some? && Mutate(w.mirror, e).Some?
    ensures var s := w.stream.value;
            Tracks(Watch(Mutate(w.mirror, e).value, Some(Stream(s.sent + Sends(e), s.base, s.edits + [e]))))
  {
    hide Fold, Sends, Mutate, DepthsAfter, MirrorDepthsAfter, FirstDepth, LastDepth, Floors;
    var s := w.stream.value;
    var node, sent := Fold(s.sent, EMPTY), s.sent + Sends(e);
    FoldAppend(s.sent, Sends(e), EMPTY);
    EditFollows(w.mirror, node.lifecycles, e);
    MirrorDepths(w.mirror, e);
    EditKeepsKeys(node.lifecycles, w.mirror.lifecycles, e);
    forall t
      ensures FirstDepth(Stream(sent, s.base, s.edits + [e]), t) == Lookup(DepthsAfter(node.lifecycles, e), t)
      ensures LastDepth(Stream(sent, s.base, s.edits + [e]), t) == Lookup(MirrorDepthsAfter(w.mirror.lifecycles, e), t)
    {
      DepthsNext(s, e, sent, node.lifecycles, w.mirror.lifecycles, t);
    }
  }

  lemma ConnectedTracks(m: MirrorSet, sends: nat, reanchor: bool)
    requires Sound(m)
    ensures Tracks(Watch(m, Connected(m, sends, reanchor)))
  {
    hide Fold, Rendered, Floors, Sound;
    if Rendered(m).Some? {
      assert Renders(m) by { RenderedMeans(m); }
      RenderedRebuilds(m);
      var msgs := Rendered(m).value;
      FoldNext(msgs, SetCursor, EMPTY);
      assert msgs + [] == msgs;
    }
  }

  /** An installed stream has carried the whole rendering; a cursor is set on it last, if at
      all. */
  lemma CursorComesLast(m: MirrorSet, sends: nat, reanchor: bool)
    requires Sound(m) && Connected(m, sends, reanchor).Some?
    ensures var sent := Connected(m, sends, reanchor).value.sent;
            && |sent| <= sends && Renders(m)
            && (reanchor ==> sent == Rendered(m).value + [SetCursor])
            && (!reanchor ==> sent == Rendered(m).value)
            && forall i :: 0 <= i < |Rendered(m).value| ==> !Rendered(m).value[i].SetCursor?
  {
    hide Rendered, Sound, RenderOrder.Ascending;
    RenderedMeans(m);
    RenderOrder.RenderedAscends(m);
    var all := Rendered(m).value;
    assert all + [] == all;
    forall i | 0 <= i < |all| ensures !all[i].SetCursor? { assert RenderOrder.Kind(all[i]) <= 8; }
  }

  lemma RenderedMeans(m: MirrorSet)
    ensures Rendered(m).Some? <==> Renders(m)
  {
  }

  lemma NextTracks(w: Watch, ev: Event)
    requires Tracks(w) && Sound(w.mirror)
    ensures Tracks(Next(w, ev)) && Sound(Next(w, ev).mirror)
  {
    hide Tracks, Connected, Sends, Sound, Mutate;
    match ev
    case Lost => NoStream(w.mirror);
    case Reconnect(sends, reanchor) => ConnectedTracks(w.mirror, sends, reanchor);
    case Change(e, send) =>
      if Mutate(w.mirror, e).Some? {
        MutateKeepsSound(w.mirror, e);
        NoStream(Mutate(w.mirror, e).value);
        if w.stream.Some? { SentTracks(w, e); }
      }
  }

  lemma NoStream(m: MirrorSet)
    ensures Tracks(Watch(m, None))
  {
  }

  /** Over every sequence of events from a new watch: the messages sent on the installed
      stream leave the node with the mirror, but for lifecycle depths; of each lifecycle the
      node has the first depth asked for since the stream was installed or the transaction
      last dropped, the mirror the last. */
  lemma {:induction false} RunTracks(events: seq<Event>)
    ensures Tracks(Run(Watch(BLANK, None), events)) && Sound(Run(Watch(BLANK, None), events).mirror)
  {
    if events == [] {
      NoStream(BLANK);
    } else {
      RunTracks(Pop(events));
      NextTracks(Run(Watch(BLANK, None), Pop(events)), Last(events));
    }
  }

  /** So the node holds exactly the mirror if and only if no lifecycle's depth was changed
      since. */
  lemma NodeIsMirrorIff(events: seq<Event>)
    ensures var w := Run(Watch(BLANK, None), events);
            w.stream.Some? ==>
              (Fold(w.stream.value.sent, EMPTY) == Normal(w.mirror) <==>
               forall t :: FirstDepth(w.stream.value, t) == LastDepth(w.stream.value, t))
  {
    hide Run, Fold, Floors, FirstDepth, LastDepth;
    RunTracks(events);
    var w := Run(Watch(BLANK, None), events);
    if w.stream.Some? {
      var s, node := w.stream.value, Fold(w.stream.value.sent, EMPTY);
      if forall t :: FirstDepth(s, t) == LastDepth(s, t) {
        SameLookups(node.lifecycles, w.mirror.lifecycles, s);
      }
    }
  }

  lemma SameLookups(a: map<Hash32, U32>, b: map<Hash32, U32>, s: Stream)
    requires forall t :: FirstDepth(s, t) == Lookup(a, t) && LastDepth(s, t) == Lookup(b, t)
    requires forall t :: FirstDepth(s, t) == LastDepth(s, t)
    ensures a == b
  {
    hide FirstDepth, LastDepth;
    forall t: Hash32 ensures Lookup(a, t) == Lookup(b, t) {
      assert FirstDepth(s, t) == LastDepth(s, t);
    }
    assert forall t :: t in a <==> Lookup(a, t).Some?;
    assert forall t :: t in b <==> Lookup(b, t).Some?;
  }

  /** Every lifecycle edit made while a stream is installed keeps the depths of held ones. */
  ghost predicate Quiet(w: Watch, events: seq<Event>) {
    events != [] ==>
      && Quiet(w, Pop(events))
      && var before := Run(w, Pop(events));
         Last(events).Change? && before.stream.Some? ==> KeepsDepths(before.mirror.lifecycles, Last(events).edit)
  }

  /** After such a sequence of events the node holds exactly the mirror. */
  lemma {:induction false} QuietRunIsExact(events: seq<Event>)
    requires Quiet(Watch(BLANK, None), events)
    ensures var w := Run(Watch(BLANK, None), events);
            w.stream.Some? ==> Fold(w.stream.value.sent, EMPTY) == Normal(w.mirror)
  {
    hide Fold, Floors, Sound, Next;
    if events != [] {
      var w := Run(Watch(BLANK, None), Pop(events));
      QuietRunIsExact(Pop(events));
      RunTracks(Pop(events));
      QuietStep(w, Last(events));
    }
  }

  lemma QuietStep(w: Watch, ev: Event)
    requires Sound(w.mirror) && (w.stream.Some? ==> Fold(w.stream.value.sent, EMPTY) == Normal(w.mirror))
    requires ev.Change? && w.stream.Some? ==> KeepsDepths(w.mirror.lifecycles, ev.edit)
    ensures var v := Next(w, ev); v.stream.Some? ==> Fold(v.stream.value.sent, EMPTY) == Normal(v.mirror)
  {
    hide Fold, Floors, Sound, Mutate, Sends, KeepsDepths, Connected;
    match ev
    case Lost =>
    case Reconnect(sends, reanchor) => ConnectedExact(w.mirror, sends, reanchor);
    case Change(e, send) =>
      if Mutate(w.mirror, e).Some? && w.stream.Some? {
        FoldAppend(w.stream.value.sent, Sends(e), EMPTY);
        EditAgreesIff(w.mirror, e);
      }
  }

  lemma ConnectedExact(m: MirrorSet, sends: nat, reanchor: bool)
    requires Sound(m)
    ensures var s := Connected(m, sends, reanchor); s.Some? ==> Fold(s.value.sent, EMPTY) == Normal(m)
  {
    hide Fold, Rendered, Floors, Sound;
    if Rendered(m).Some? {
      assert Renders(m) by { RenderedMeans(m); }
      RenderedRebuilds(m);
      FoldNext(Rendered(m).value, SetCursor, EMPTY);
      assert Rendered(m).value + [] == Rendered(m).value;
    }
  }

  /** An edit that is delivered moves both sides' lifecycles. */
  lemma DeliveredMoves(w: Watch, e: Edit)
    requires Tracks(w) && w.stream.Some? && Mutate(w.mirror, e).Some?
    ensures var v := Next(w, Change(e, Delivered));
            && v.stream.Some? && v.mirror.lifecycles == MirrorDepthsAfter(w.mirror.lifecycles, e)
            && Fold(v.stream.value.sent, EMPTY).lifecycles ==
               DepthsAfter(Fold(w.stream.value.sent, EMPTY).lifecycles, e)
  {
    hide Fold, Sends, Mutate, DepthsAfter, MirrorDepthsAfter, FirstDepth, LastDepth, Floors;
    var s := w.stream.value;
    FoldAppend(s.sent, Sends(e), EMPTY);
    EditFollows(w.mirror, Fold(s.sent, EMPTY).lifecycles, e);
    MirrorDepths(w.mirror, e);
  }

  /** After any events that leave a stream installed and a transaction unwatched, ask for its
      lifecycle with one depth and then with another: the node keeps the first, the mirror
      takes the second, and any reconnect that succeeds brings the node over. */
  lemma FirstCloseWins(events: seq<Event>, t: Hash32, first: U32, second: U32, sends: nat, reanchor: bool)
    requires var w := Run(Watch(BLANK, None), events); w.stream.Some? && t !in w.mirror.lifecycles
    ensures var a, b := WatchLifecycles(first, [t]), WatchLifecycles(second, [t]);
            var v := Run(Watch(BLANK, None), events + [Change(a, Delivered), Change(b, Delivered)]);
            && v.stream.Some? && Lookup(Fold(v.stream.value.sent, EMPTY).lifecycles, t) == Some(first)
            && Lookup(v.mirror.lifecycles, t) == Some(second)
            && var u := Next(v, Reconnect(sends, reanchor));
               u.mirror == v.mirror && (u.stream.Some? ==> Fold(u.stream.value.sent, EMPTY) == Normal(v.mirror))
  {
    hide Fold, Floors, Sound, Next, Tracks, Run;
    var x, y := Change(WatchLifecycles(first, [t]), Delivered), Change(WatchLifecycles(second, [t]), Delivered);
    var w := Run(Watch(BLANK, None), events);
    RunTracks(events);
    SameKeys(w);
    AskedOnce(w, t, first);
    NextTracks(w, x);
    AskedOnce(Next(w, x), t, second);
    NextTracks(Next(w, x), y);
    assert events + [x, y] == events + [x] + [y];
    RunNext(events, x);
    RunNext(events + [x], y);
    Reconnects(Next(Next(w, x), y), sends, reanchor);
  }

  lemma AskedOnce(w: Watch, t: Hash32, close: U32)
    requires Tracks(w) && w.stream.Some?
    ensures var node := Fold(w.stream.value.sent, EMPTY).lifecycles;
            var v := Next(w, Change(WatchLifecycles(close, [t]), Delivered));
            && v.stream.Some? && Lookup(v.mirror.lifecycles, t) == Some(close)
            && Lookup(Fold(v.stream.value.sent, EMPTY).lifecycles, t) == Some(if t in node then node[t] else close)
  {
    hide Fold, Floors, Next, Tracks, DepthsAfter, MirrorDepthsAfter;
    DeliveredMoves(w, WatchLifecycles(close, [t]));
    LookupAfter(Fold(w.stream.value.sent, EMPTY).lifecycles, w.mirror.lifecycles, WatchLifecycles(close, [t]), t);
  }

  lemma SameKeys(w: Watch)
    requires Tracks(w) && w.stream.Some?
    ensures Fold(w.stream.value.sent, EMPTY).lifecycles.Keys == w.mirror.lifecycles.Keys
  {
  }

  lemma RunNext(events: seq<Event>, ev: Event)
    ensures Run(Watch(BLANK, None), events + [ev]) == Next(Run(Watch(BLANK, None), events), ev)
  {
    assert Pop(events + [ev]) == events;
  }

  lemma Reconnects(w: Watch, sends: nat, reanchor: bool)
    requires Sound(w.mirror)
    ensures var u := Next(w, Reconnect(sends, reanchor));
            u.mirror == w.mirror && (u.stream.Some? ==> Fold(u.stream.value.sent, EMPTY) == Normal(w.mirror))
  {
    hide Fold, Floors, Sound, Connected;
    ConnectedExact(w.mirror, sends, reanchor);
  }
}
