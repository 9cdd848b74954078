/** The resilient subscription: a pump that reconnects and hands items over one at a time, and
    a caller whose polls commit the resume cursor. The server keeps an append-only log and
    replays from any cursor; a cursor is the number of log entries before the position it
    stands for. */
module Resilience {
  import opened ScriptTypes

  type Pos = nat

  /** A handed-over event: the log entry it carries, if any, and the high-water it is tagged
      with. A synthesized notice or a final error carries no entry. */
  datatype Item = Item(entry: Option<Pos>, tag: Option<Pos>)

  // ---- The fields under the mutex, and the sections that change them -------------------

  datatype Memory = Memory(resume: Option<Pos>, commitNext: Option<Pos>, committed: Option<Pos>, pending: Option<Item>)

  const BLANK := Memory(None, None, None, None)

  /** Whether a commit has something to write. */
  predicate WriteDue(m: Memory) { m.commitNext.Some? && m.committed != m.commitNext }

  function Retired(m: Memory, c: Pos): Memory {
    m.(commitNext := if m.commitNext == Some(c) then None else m.commitNext, committed := Some(c))
  }

  /** The anchor of a first connect: memory, else the store, else the caller's own cursor. */
  function Seeded(m: Memory, stored: Option<Pos>, base: Option<Pos>): Memory {
    if m.resume.Some? then m
    else if stored.None? then m.(resume := base)
    else m.(resume := stored, committed := if m.committed.None? then stored else m.committed)
  }

  function Advanced(m: Memory, cursor: Option<Pos>): Memory {
    if cursor.Some? then m.(resume := cursor) else m
  }

  // ---- Whole runs ----------------------------------------------------------------------

  /** Where the caller is inside Next, or inside Commit, which carries no item. */
  datatype Caller =
    | Idle
    | Polling
    | Due(item: Option<Item>)
    | Writing(item: Option<Item>, c: Pos)
    | Wrote(item: Option<Item>, c: Pos)
    | Failing(item: Option<Item>)
    | Ready(item: Option<Item>)

  datatype World = World(
    log: seq<bool>,               // per entry: does it carry a cursor?
    store: Option<Pos>,           // outlives a crash
    base: Option<Pos>,            // the caller's own FromCursor, if any
    mem: Memory,
    caller: Caller,
    stream: Option<Pos>,          // the next entry the server sends
    streamCursor: Option<Pos>,    // the last cursor seen on this stream
    offered: Option<Item>,        // the pump is blocked handing this over
    stopped: bool,                // the pump has returned
    received: seq<Item>,          // everything this process took off a stream
    returned: seq<Item>,          // everything this process's Next returned
    handed: set<Pos>,             // log entries ever returned by Next, over all processes
    tagged: set<Pos>)             // tags of items ever returned by Next

  datatype Action =
    | Append(carriesCursor: bool)
    // pump
    | Seed | Open(head: bool) | Recv | Notice | Lag(cursor: Option<Pos>) | Drop | Fatal | Close
    // caller
    | StartNext | CancelNext | Handoff | StartCommit | Decide
    | StoreOk | StoreFail(landed: bool) | Retire | GiveBack | Return
    // the process dies and starts again
    | Crash

  function Fresh(log: seq<bool>, store: Option<Pos>, base: Option<Pos>): World {
    World(log, store, base, BLANK, Idle, None, None, None, false, [], [], {}, {})
  }

  function Pump(w: World, a: Action): World {
    if w.stopped || w.offered.Some? then w
    else match a
    case Seed => if w.stream.None? then w.(mem := Seeded(w.mem, w.store, w.base)) else w
    case Open(head) =>
      if w.stream.Some? then w else Opened(w.(mem := Seeded(w.mem, w.store, w.base)), head)
    case Recv =>
      if w.stream.Some? && w.stream.value < |w.log| then Received(w, w.stream.value) else w
    case Notice => if w.stream.Some? then Offer(w, Item(None, w.mem.resume)) else w
    case Lag(r) =>
      // the notice names at most the position the server had delivered
      if w.stream.Some? && (r.Some? ==> r.value <= w.stream.value)
      then w.(mem := Advanced(w.mem, r), stream := None) else w
    case Drop => w.(stream := None)
    case Fatal => Offer(w, Item(None, None)).(stream := None, stopped := true)
    case _ => w
  }

  /** Subscribe from the anchor; with none, from the end of the log, adopting that position
      if the server says where it is. */
  function Opened(w: World, head: bool): World {
    if w.mem.resume.None? then
      w.(stream := Some(|w.log|), streamCursor := None, mem := w.mem.(resume := if head then Some(|w.log|) else None))
    else if w.mem.resume.value <= |w.log| then w.(stream := w.mem.resume, streamCursor := None)
    else w
  }

  function Offer(w: World, it: Item): World {
    w.(offered := Some(it), received := w.received + [it])
  }

  function Received(w: World, k: Pos): World
    requires k < |w.log|
  {
    var seen := if w.log[k] then Some(k + 1) else w.streamCursor;
    var mem := Advanced(w.mem, seen);
    Offer(w.(mem := mem, stream := Some(k + 1), streamCursor := seen), Item(Some(k), mem.resume))
  }

  function Call(w: World, a: Action): World {
    match (a, w.caller)
    case (StartNext, Idle) =>
      if w.mem.pending.Some? then w.(caller := Due(w.mem.pending), mem := w.mem.(pending := None))
      else w.(caller := Polling)
    case (CancelNext, Polling) => w.(caller := Idle)
    case (Handoff, Polling) => if w.offered.Some? then w.(caller := Due(w.offered), offered := None) else w
    case (StartCommit, Idle) => w.(caller := Due(None))
    case (Decide, Due(it)) =>
      if WriteDue(w.mem) then w.(caller := Writing(it, w.mem.commitNext.value))
      else w.(caller := Ready(it), mem := w.mem.(commitNext := None))
    case (StoreOk, Writing(it, c)) => w.(store := Some(c), caller := Wrote(it, c))
    case (StoreFail(landed), Writing(it, c)) => w.(store := if landed then Some(c) else w.store, caller := Failing(it))
    case (Retire, Wrote(it, c)) => w.(mem := Retired(w.mem, c), caller := Ready(it))
    case (GiveBack, Failing(it)) =>
      w.(mem := if it.Some? then w.mem.(pending := it) else w.mem, caller := Idle)
    case (Return, Ready(None)) => w.(caller := Idle)
    case (Return, Ready(Some(it))) =>
      w.(mem := w.mem.(commitNext := it.tag), caller := Idle, returned := w.returned + [it],
         handed := w.handed + Members(it.entry), tagged := w.tagged + Members(it.tag))
    case _ => w
  }

  function Members(p: Option<Pos>): set<Pos> { if p.Some? then {p.value} else {} }

  /** An action that is not enabled changes nothing, so every list of actions is a run. */
  function Step(w: World, a: Action): World {
    match a
    case Append(b) => w.(log := w.log + [b])
    case Crash => Fresh(w.log, w.store, w.base).(handed := w.handed, tagged := w.tagged)
    case Close => w.(stopped := true, stream := None, offered := None)
    case _ => Call(Pump(w, a), a)
  }

  function Run(w: World, acts: seq<Action>): World {
    if acts == [] then w else Step(Run(w, Pop(acts)), Last(acts))
  }

  // ---- The object ----------------------------------------------------------------------

  datatype Write = Succeeds | Fails(landed: bool)
  datatype Arrival = Got(item: Item) | Closed | Done
  datatype Polled = Event(item: Item) | Cancelled | StoreError | Eof

  class CursorStore {
    var cursor: Option<Pos>

    /** A write that fails may still have landed. */
    method Store(c: Pos, write: Write) returns (ok: bool)
      modifies this
      ensures ok == write.Succeeds?
      ensures cursor == if write.Succeeds? || write.landed then Some(c) else old(cursor)
    {
      ok := write.Succeeds?;
      if ok || write.landed { cursor := Some(c); }
    }
  }

  function Outcome(write: Write): Action { if write.Succeeds? then StoreOk else StoreFail(write.landed) }

  /** The caller's steps of a commit; one that is not enabled does nothing. */
  function Commits(w: World, write: Write): World { Call(Call(Call(w, Decide), Outcome(write)), Retire) }

  function Finish(w: World): World { Call(Call(Call(w, GiveBack), Return), CancelNext) }

  function Poll(w: World, write: Write): World { Finish(Commits(Call(Call(w, StartNext), Handoff), write)) }

  lemma Finishes(w: World)
    requires w.caller.Ready? || w.caller.Failing? || w.caller.Polling?
    ensures Finish(w).caller == Idle && Finish(w).store == w.store
    ensures w.caller.Polling? || w.caller.item.None? ==> Finish(w).mem == w.mem && Finish(w).returned == w.returned
    ensures w.caller.Failing? && w.caller.item.Some? ==>
            Finish(w).mem == w.mem.(pending := w.caller.item) && Finish(w).returned == w.returned
    ensures w.caller.Ready? && w.caller.item.Some? ==>
              Finish(w).mem == w.mem.(commitNext := w.caller.item.value.tag) &&
                Finish(w).returned == w.returned + [w.caller.item.value]
  {
  }

  lemma Starts(w: World)
    requires w.caller == Idle
    ensures var v := Call(Call(w, StartNext), Handoff);
            && v.mem == w.mem.(pending := None) && v.store == w.store && v.returned == w.returned
            && v.caller == if w.mem.pending.Some? then Due(w.mem.pending)
                           else if w.offered.Some? then Due(w.offered) else Polling
  {
  }

  lemma CommitsIs(w: World, write: Write)
    requires w.caller.Due?
    ensures Commits(w, write)
            == if !WriteDue(w.mem) then w.(caller := Ready(w.caller.item), mem := w.mem.(commitNext := None))
               else if write.Succeeds? then
                 w.(caller := Ready(w.caller.item), mem := Retired(w.mem, w.mem.commitNext.value),
                    store := w.mem.commitNext)
               else w.(caller := Failing(w.caller.item), store := if write.landed then w.mem.commitNext else w.store)
  {
  }

  lemma NothingToCommit(w: World, write: Write)
    requires w.caller == Polling
    ensures Commits(w, write) == w
  {
  }

  class ResilientSubscription {
    const fromCursor: Option<Pos>
    var resume: Option<Pos>
    var commitNext: Option<Pos>
    var committed: Option<Pos>
    var pending: Option<Item>

    function Fields(): Memory
      reads this
    {
      Memory(resume, commitNext, committed, pending)
    }

    constructor (fromCursor: Option<Pos>)
      ensures this.fromCursor == fromCursor && Fields() == BLANK
    {
      this.fromCursor := fromCursor;
      resume, commitNext, committed, pending := None, None, None, None;
    }

    method TakePending() returns (item: Option<Item>)
      modifies this
      ensures item == old(pending) && Fields() == old(Fields()).(pending := None)
    {
      item := pending;
      pending := None;
    }

    /** The section that decides whether the armed cursor has to be written. */
    method BeginCommit() returns (due: Option<Pos>)
      modifies this
      ensures due.Some? <==> WriteDue(old(Fields()))
      ensures due.Some? ==> due == old(commitNext) && Fields() == old(Fields())
      ensures due.None? ==> Fields() == old(Fields()).(commitNext := None)
    {
      if commitNext == None || (committed.Some? && committed.value == commitNext.value) {
        commitNext := None;
        return None;
      }
      return commitNext;
    }

    method EndCommit(c: Pos)
      modifies this
      ensures Fields() == Retired(old(Fields()), c)
    {
      if commitNext.Some? && commitNext.value == c { commitNext := None; }
      committed := Some(c);
    }

    method HoldBack(item: Item)
      modifies this
      ensures Fields() == old(Fields()).(pending := Some(item))
    {
      pending := Some(item);
    }

    method Arm(item: Item)
      modifies this
      ensures Fields() == old(Fields()).(commitNext := item.tag)
    {
      commitNext := item.tag;
    }

    method SeedResume(stored: Option<Pos>)
      modifies this
      ensures Fields() == Seeded(old(Fields()), stored, fromCursor)
    {
      if resume.Some? { return; }
      if stored.Some? {
        if committed == None { committed := stored; }
        resume := stored;
      } else if fromCursor.Some? {
        resume := fromCursor;
      }
    }

    /** Advance the high-water to the stream's cursor and tag the item with it. */
    method Tag(cursor: Option<Pos>, entry: Option<Pos>) returns (item: Item)
      modifies this
      ensures Fields() == Advanced(old(Fields()), cursor) && item == Item(entry, resume)
    {
      if cursor.Some? { resume := cursor; }
      item := Item(entry, resume);
    }

    /** Write the armed cursor, if it is not what the store holds already. */
    method CommitDue(store: CursorStore, write: Write, ghost w: World) returns (ok: bool)
      requires w.mem == Fields() && w.store == store.cursor && w.caller.Due?
      modifies this, store
      ensures var v := Commits(w, write);
              && v.mem == Fields() && v.store == store.cursor && v.returned == w.returned
              && v.caller == if ok then Ready(w.caller.item) else Failing(w.caller.item)
    {
      hide Commits;
      CommitsIs(w, write);
      var due := BeginCommit();
      if due.None? { return true; }
      ok := store.Store(due.value, write);
      if ok { EndCommit(due.value); }
    }

    /** One call of Next, in which an item arrives, the channel is closed because the pump is
        gone, or the caller's context is done: the caller's steps in order. */
    method Next(arrival: Arrival, store: CursorStore, write: Write, ghost w: World) returns (r: Polled)
      requires w.mem == Fields() && w.store == store.cursor && w.caller == Idle
      requires w.offered == (if arrival.Got? then Some(arrival.item) else None) && (arrival.Closed? ==> w.stopped)
      modifies this, store
      ensures var v := Poll(w, write);
              && v.mem == Fields() && v.store == store.cursor && v.caller == Idle
              && v.returned == w.returned + (if r.Event? then [r.item] else [])
      ensures r.Cancelled? <==> old(pending).None? && arrival.Done?
      ensures r.Eof? <==> old(pending).None? && arrival.Closed?
      ensures r.Event? ==> Some(r.item) == if old(pending).Some? then old(pending) else w.offered
    {
      hide Call, Commits, Finish;
      ghost var started := Call(Call(w, StartNext), Handoff);
      Starts(w);
      var item := TakePending();
      if item.None? {
        if !arrival.Got? {
          NothingToCommit(started, write);
          Finishes(started);
          return if arrival.Closed? then Eof else Cancelled;
        }
        item := Some(arrival.item);
      }
      var ok := CommitDue(store, write, started);
      Finishes(Commits(started, write));
      if !ok {
        HoldBack(item.value);
        return StoreError;
      }
      Arm(item.value);
      return Event(item.value);
    }

    method Commit(store: CursorStore, write: Write, ghost w: World) returns (ok: bool)
      requires w.mem == Fields() && w.store == store.cursor && w.caller == Idle
      modifies this, store
      ensures var v := Finish(Commits(Call(w, StartCommit), write));
              v.mem == Fields() && v.store == store.cursor && v.caller == Idle && v.returned == w.returned
    {
      ghost var started := w.(caller := Due(None));
      assert Call(w, StartCommit) == started;
      hide Call, Commits, Finish;
      ok := CommitDue(store, write, started);
      Finishes(Commits(started, write));
    }
  }

  // ---- What every step keeps -----------------------------------------------------------

  /** The item that Next holds, or has put aside after a failed commit. */
  function Taken(w: World): Option<Item> {
    if w.caller.Due? || w.caller.Writing? || w.caller.Wrote? || w.caller.Failing? || w.caller.Ready?
    then if w.caller.item.Some? then w.caller.item else w.mem.pending
    else w.mem.pending
  }

  predicate Carries(it: Option<Item>, i: Pos) { it.Some? && it.value.entry == Some(i) }

  /** Every entry from the anchor up to c was returned, or is in x or y. */
  ghost predicate Below(w: World, anchor: Pos, c: Option<Pos>, x: Option<Item>, y: Option<Item>) {
    c.Some? ==> forall i :: anchor <= i < c.value ==> i in w.handed || Carries(x, i) || Carries(y, i)
  }

  function TagOf(it: Option<Item>): Option<Pos> { if it.Some? then it.value.tag else None }

  ghost predicate PumpSafe(w: World, anchor: Pos) {
    && (!w.stopped ==> Below(w, anchor, w.mem.resume, Taken(w), w.offered))
    && Below(w, anchor, w.stream, Taken(w), w.offered)
    && Below(w, anchor, TagOf(w.offered), Taken(w), w.offered)
    && (w.stream.Some? ==> w.stream.value <= |w.log|)
    && (w.stream.Some? && w.streamCursor.Some? ==> w.streamCursor.value <= w.stream.value)
  }

  ghost predicate CommitSafe(w: World, anchor: Pos) {
    && Below(w, anchor, TagOf(Taken(w)), Taken(w), None)
    && Below(w, anchor, w.mem.commitNext, None, None)
    && Below(w, anchor, w.store, None, None)
    && (w.store.None? ==> w.base.Some? ==> w.base.value == anchor)
  }

  predicate Carrying(w: World) {
    match w.caller
    case Idle => false
    case Polling => true
    case _ => w.caller.item.Some?
  }

  /** Nothing received is lost or reordered on its way to the caller. */
  predicate InOrder(w: World) {
    var delivered := w.returned + AsSeq(Taken(w)) + AsSeq(w.offered);
    if w.stopped then delivered <= w.received else delivered == w.received
  }

  function AsSeq(it: Option<Item>): seq<Item> { if it.Some? then [it.value] else [] }

  function LastTag(items: seq<Item>): Option<Pos> { if items == [] then None else Last(items).tag }

  /** What the caller may rely on once a commit has succeeded. */
  predicate Durable(w: World) {
    && (w.mem.commitNext == LastTag(w.returned) || (w.mem.commitNext == None && w.store == LastTag(w.returned)))
    && (w.mem.committed.Some? ==> w.store == w.mem.committed || (w.mem.commitNext.Some? && w.store == w.mem.commitNext))
    && (w.caller.Ready? ==> w.mem.commitNext == None)
    && (w.caller.Writing? || w.caller.Wrote? ==> w.mem.commitNext == Some(w.caller.c))
    && (w.caller.Wrote? ==> w.store == Some(w.caller.c))
  }

  /** What needs no anchor. */
  predicate Ledger(w: World, first: Option<Pos>) {
    && InOrder(w) && Durable(w)
    && (w.mem.commitNext.Some? ==> w.mem.commitNext.value in w.tagged)
    && (w.store.Some? ==> w.store == first || w.store.value in w.tagged)
    && (Carrying(w) ==> w.mem.pending == None)
  }

  ghost predicate Inv(w: World, anchor: Pos, first: Option<Pos>) {
    PumpSafe(w, anchor) && CommitSafe(w, anchor) && Ledger(w, first)
  }

  lemma PumpMoves(w: World, a: Action)
    ensures var v := Pump(w, a);
            && Taken(v) == Taken(w) && v.caller == w.caller && v.store == w.store && v.base == w.base && v.log == w.log
            && v.handed == w.handed && v.tagged == w.tagged && v.returned == w.returned
            && v.mem.commitNext == w.mem.commitNext && v.mem.pending == w.mem.pending
            && (v.mem.committed == w.mem.committed || v.mem.committed == w.store)
    ensures var v := Pump(w, a);
            || (v.offered == w.offered && v.received == w.received && v.stopped == w.stopped)
            || (w.offered == None && v.offered.Some? && v.received == w.received + [v.offered.value] && !w.stopped)
  {
  }

  /** A subscribe that has no anchor at all, so that what came before is not asked for. */
  predicate StartsLive(w: World, a: Action) {
    a.Open? && w.mem.resume.None? && w.store.None? && w.base.None?
  }

  /** What was below a cursor stays below it when nothing handed out is taken back. */
  lemma BelowStays(w: World, v: World, anchor: Pos, c: Option<Pos>, x: Option<Item>, y: Option<Item>)
    requires Below(w, anchor, c, None, None) && v.handed == w.handed
    ensures Below(v, anchor, c, x, y)
  {
  }

  lemma SeedSafe(w: World, anchor: Pos)
    requires PumpSafe(w, anchor) && CommitSafe(w, anchor)
    ensures PumpSafe(w.(mem := Seeded(w.mem, w.store, w.base)), anchor)
  {
    var v := w.(mem := Seeded(w.mem, w.store, w.base));
    assert Taken(v) == Taken(w);
    if w.mem.resume.None? { BelowStays(w, v, anchor, w.store, Taken(w), w.offered); }
  }

  lemma OpenSafe(w: World, head: bool, anchor: Pos)
    requires PumpSafe(w, anchor) && w.mem.resume.Some? && !w.stopped
    ensures PumpSafe(Opened(w, head), anchor)
  {
    hide Below;
    assert Taken(Opened(w, head)) == Taken(w);
    SameBelow(w, Opened(w, head), anchor, w.mem.resume, Taken(w), w.offered);
    SameBelow(w, Opened(w, head), anchor, TagOf(w.offered), Taken(w), w.offered);
  }

  lemma SameBelow(w: World, v: World, anchor: Pos, c: Option<Pos>, x: Option<Item>, y: Option<Item>)
    requires Below(w, anchor, c, x, y) && v.handed == w.handed
    ensures Below(v, anchor, c, x, y)
  {
  }

  lemma RecvSafe(w: World, anchor: Pos)
    requires PumpSafe(w, anchor) && !w.stopped && w.offered.None? && w.stream.Some? && w.stream.value < |w.log|
    ensures PumpSafe(Received(w, w.stream.value), anchor)
  {
    var v := Received(w, w.stream.value);
    assert Taken(v) == Taken(w);
    assert Below(v, anchor, v.stream, Taken(v), v.offered);
    assert Below(v, anchor, v.mem.resume, Taken(v), v.offered);
  }

  /** The steps that open nothing and receive nothing. */
  lemma OtherSafe(w: World, a: Action, anchor: Pos)
    requires PumpSafe(w, anchor) && !a.Seed? && !a.Open? && !a.Recv?
    ensures PumpSafe(Pump(w, a), anchor)
  {
    assert Taken(Pump(w, a)) == Taken(w);
  }

  lemma PumpKeepsSafe(w: World, a: Action, anchor: Pos)
    requires PumpSafe(w, anchor) && CommitSafe(w, anchor) && !StartsLive(w, a)
    ensures PumpSafe(Pump(w, a), anchor)
  {
    hide PumpSafe, Opened, Received;
    if !w.stopped && w.offered.None? {
      if a.Seed? || a.Open? {
        SeedSafe(w, anchor);
        var v := w.(mem := Seeded(w.mem, w.store, w.base));
        if a.Open? && w.stream.None? { OpenSafe(v, a.head, anchor); }
      } else if a.Recv? {
        if w.stream.Some? && w.stream.value < |w.log| { RecvSafe(w, anchor); }
      } else {
        OtherSafe(w, a, anchor);
      }
    }
  }

  lemma PumpKeeps(w: World, a: Action, anchor: Pos)
    requires PumpSafe(w, anchor) && CommitSafe(w, anchor) && !StartsLive(w, a)
    ensures PumpSafe(Pump(w, a), anchor) && CommitSafe(Pump(w, a), anchor)
  {
    hide Pump, Taken, PumpSafe;
    PumpMoves(w, a);
    PumpKeepsSafe(w, a, anchor);
  }

  lemma PumpLedger(w: World, a: Action, first: Option<Pos>)
    requires Ledger(w, first)
    ensures Ledger(Pump(w, a), first)
  {
    hide Pump, Taken;
    PumpMoves(w, a);
    var d := w.returned + AsSeq(Taken(w));
    assert d + [] == d;
  }

  /** A call moves the item it holds, and loses it only by returning it. */
  lemma CallMoves(w: World, a: Action)
    requires Carrying(w) ==> w.mem.pending == None
    ensures var v := Call(w, a);
            || (&& Taken(v) == Taken(w) && v.offered == w.offered
                && v.handed == w.handed && v.returned == w.returned && v.tagged == w.tagged)
            || (&& Taken(w) == None && Taken(v) == w.offered && v.offered == None
                && v.handed == w.handed && v.returned == w.returned && v.tagged == w.tagged)
            || (&& Taken(w).Some? && Taken(v) == None && v.offered == w.offered
                && v.returned == w.returned + [Taken(w).value]
                && v.handed == w.handed + Members(Taken(w).value.entry)
                && v.tagged == w.tagged + Members(Taken(w).value.tag)
                && v.mem.commitNext == Taken(w).value.tag)
  {
  }

  lemma CallFrame(w: World, a: Action)
    requires Carrying(w) ==> w.mem.pending == None
    ensures var v := Call(w, a); Carrying(v) ==> v.mem.pending == None
    ensures var v := Call(w, a); v.log == w.log && v.base == w.base && v.mem.resume == w.mem.resume
    ensures Call(w, a).stream == w.stream
    ensures var v := Call(w, a); v.streamCursor == w.streamCursor && v.stopped == w.stopped && v.received == w.received
  {
  }

  lemma CallKeepsPump(w: World, a: Action, anchor: Pos)
    requires PumpSafe(w, anchor) && (Carrying(w) ==> w.mem.pending == None)
    ensures PumpSafe(Call(w, a), anchor)
  {
    hide Call, Taken;
    CallMoves(w, a);
    CallFrame(w, a);
  }

  /** What a call does to the store and to the armed cursor. */
  lemma CallCommits(w: World, a: Action)
    requires Carrying(w) ==> w.mem.pending == None
    requires w.caller.Writing? || w.caller.Wrote? ==> w.mem.commitNext == Some(w.caller.c)
    ensures var v := Call(w, a); v.store == w.store || (w.mem.commitNext.Some? && v.store == w.mem.commitNext)
    ensures var v := Call(w, a);
            || v.mem.commitNext == w.mem.commitNext
            || v.mem.commitNext == None
            || (&& Taken(w).Some? && v.mem.commitNext == Taken(w).value.tag && Taken(v) == None
                && v.handed == w.handed + Members(Taken(w).value.entry)
                && v.tagged == w.tagged + Members(Taken(w).value.tag))
    ensures var v := Call(w, a); v.caller.Writing? || v.caller.Wrote? ==> v.mem.commitNext == Some(v.caller.c)
  {
  }

  lemma CallKeepsCommit(w: World, a: Action, anchor: Pos, first: Option<Pos>)
    requires PumpSafe(w, anchor) && CommitSafe(w, anchor) && Ledger(w, first)
    ensures CommitSafe(Call(w, a), anchor)
  {
    hide Call, Taken, InOrder;
    CallMoves(w, a);
    CallFrame(w, a);
    CallCommits(w, a);
  }

  lemma CallKeepsOrder(w: World, a: Action)
    requires InOrder(w) && (Carrying(w) ==> w.mem.pending == None)
    ensures InOrder(Call(w, a))
  {
    hide Call, Taken;
    CallMoves(w, a);
    CallFrame(w, a);
    var v := Call(w, a);
    var x, y := w.returned + AsSeq(Taken(w)), v.returned + AsSeq(Taken(v));
    assert w.returned + [] == w.returned && v.returned + [] == v.returned && x + [] == x && y + [] == y;
  }

  lemma CallKeepsDurable(w: World, a: Action)
    requires Durable(w)
    ensures Durable(Call(w, a))
  {
  }

  lemma CallLedger(w: World, a: Action, first: Option<Pos>)
    requires Ledger(w, first)
    ensures Ledger(Call(w, a), first)
  {
    hide Call, Taken, InOrder;
    CallMoves(w, a);
    CallFrame(w, a);
    CallCommits(w, a);
    CallKeepsOrder(w, a);
    CallKeepsDurable(w, a);
  }

  lemma CrashLedger(w: World, first: Option<Pos>)
    requires Ledger(w, first)
    ensures Ledger(Step(w, Crash), first)
  {
    hide Pump, Call;
    assert Taken(Step(w, Crash)) == None;
  }

  lemma CloseLedger(w: World, first: Option<Pos>)
    requires Ledger(w, first)
    ensures Ledger(Step(w, Close), first)
  {
    hide Pump, Call;
    assert Taken(Step(w, Close)) == Taken(w);
    var x := w.returned + AsSeq(Taken(w));
    assert x + [] == x && x <= x + AsSeq(w.offered);
  }

  lemma StepLedger(w: World, a: Action, first: Option<Pos>)
    requires Ledger(w, first)
    ensures Ledger(Step(w, a), first)
  {
    hide Pump, Call, Ledger;
    if a.Append? {
      AppendLedger(w, a.carriesCursor, first);
    } else if a.Crash? {
      CrashLedger(w, first);
    } else if a.Close? {
      CloseLedger(w, first);
    } else {
      PumpLedger(w, a, first);
      CallLedger(Pump(w, a), a, first);
    }
  }

  lemma AppendLedger(w: World, carries: bool, first: Option<Pos>)
    requires Ledger(w, first)
    ensures Ledger(Step(w, Append(carries)), first)
  {
    hide Pump, Call;
    assert Taken(Step(w, Append(carries))) == Taken(w);
  }

  /** An append, a crash and a close. */
  lemma OtherKeeps(w: World, a: Action, anchor: Pos)
    requires PumpSafe(w, anchor) && CommitSafe(w, anchor) && (a.Append? || a.Crash? || a.Close?)
    ensures PumpSafe(Step(w, a), anchor) && CommitSafe(Step(w, a), anchor)
  {
    hide Pump, Call;
    assert Taken(Step(w, a)) == if a.Crash? then None else Taken(w);
  }

  lemma StepKeeps(w: World, a: Action, anchor: Pos, first: Option<Pos>)
    requires Inv(w, anchor, first) && !StartsLive(w, a)
    ensures Inv(Step(w, a), anchor, first)
  {
    hide Pump, Call, PumpSafe, CommitSafe, Ledger;
    StepLedger(w, a, first);
    if a.Append? || a.Crash? || a.Close? {
      OtherKeeps(w, a, anchor);
    } else {
      PumpKeeps(w, a, anchor);
      PumpLedger(w, a, first);
      CallKeepsCommit(Pump(w, a), a, anchor, first);
      CarriesOne(Pump(w, a), first);
      CallKeepsPump(Pump(w, a), a, anchor);
    }
  }

  lemma CarriesOne(w: World, first: Option<Pos>)
    requires Ledger(w, first)
    ensures Carrying(w) ==> w.mem.pending == None
  {
  }

  // ---- At least once -------------------------------------------------------------------

  /** Where the promise starts: what the store held at first, else the caller's cursor. */
  function Anchor(store: Option<Pos>, base: Option<Pos>): Pos
    requires store.Some? || base.Some?
  {
    if store.Some? then store.value else base.value
  }

  predicate HasCaughtUp(w: World) { w.stream == Some(|w.log|) && Taken(w) == None && w.offered == None }

  predicate HadAll(w: World, from: Pos) { forall i :: from <= i < |w.log| ==> i in w.handed }

  ghost predicate NeverLive(w: World, acts: seq<Action>) {
    acts != [] ==> NeverLive(w, Pop(acts)) && !StartsLive(Run(w, Pop(acts)), Last(acts))
  }

  lemma {:induction false} KeepsFrom(w: World, acts: seq<Action>, anchor: Pos, first: Option<Pos>)
    requires Inv(w, anchor, first) && NeverLive(w, acts)
    ensures Inv(Run(w, acts), anchor, first)
  {
    if acts != [] {
      KeepsFrom(w, Pop(acts), anchor, first);
      StepKeeps(Run(w, Pop(acts)), Last(acts), anchor, first);
    }
  }

  /** An anchor is never lost again: the store keeps a cursor once it has one. */
  lemma {:induction false} SeededNeverLive(w: World, acts: seq<Action>)
    requires w.store.Some? || w.base.Some?
    ensures NeverLive(w, acts) && (Run(w, acts).store.Some? || Run(w, acts).base.Some?)
  {
    hide Step;
    if acts != [] {
      SeededNeverLive(w, Pop(acts));
      StoreStays(Run(w, Pop(acts)), Last(acts));
    }
  }

  lemma StoreStays(w: World, a: Action)
    ensures Step(w, a).base == w.base && (w.store.Some? ==> Step(w, a).store.Some?)
  {
    hide Pump, Call, Taken;
    PumpMoves(w, a);
    CallStores(Pump(w, a), a);
  }

  lemma CallStores(w: World, a: Action)
    ensures Call(w, a).base == w.base && (w.store.Some? ==> Call(w, a).store.Some?)
  {
  }

  lemma RunKeeps(log: seq<bool>, store: Option<Pos>, base: Option<Pos>, acts: seq<Action>)
    requires store.Some? || base.Some?
    ensures Inv(Run(Fresh(log, store, base), acts), Anchor(store, base), store)
  {
    hide Run, NeverLive;
    SeededNeverLive(Fresh(log, store, base), acts);
    KeepsFrom(Fresh(log, store, base), acts, Anchor(store, base), store);
  }

  /** With no anchor given, the first subscribe makes one if the server names its position,
      and the promise holds from there on for as long as no later subscribe is without one:
      that takes a crash before anything was stored. */
  lemma LiveStart(log: seq<bool>, acts: seq<Action>)
    ensures var w := Step(Fresh(log, None, None), Open(true));
            NeverLive(w, acts) ==> Inv(Run(w, acts), |log|, None)
  {
    var w := Step(Fresh(log, None, None), Open(true));
    assert w.mem.resume == Some(|log|) && w.stream == Some(|log|);
    assert Inv(w, |log|, None);
    if NeverLive(w, acts) { KeepsFrom(w, acts, |log|, None); }
  }

  /** And such a crash does lose, on every log: what the log takes in before the next
      subscribe is never handed out, though the caller has caught up. */
  lemma UnseededCrashLoses(log: seq<bool>, carries: bool)
    ensures var w := Run(Fresh(log, None, None), [Open(true), Crash, Append(carries), Open(true)]);
            HasCaughtUp(w) && |w.log| == |log| + 1 && |log| !in w.handed
  {
    hide Run, Step;
    var f := Fresh(log, None, None);
    NoActions(f);
    RunNext(f, [], Open(true));
    assert [] + [Open(true)] == [Open(true)];
    RunNext(f, [Open(true)], Crash);
    assert [Open(true)] + [Crash] == [Open(true), Crash];
    CrashForgets(log, carries);
    RunNext(f, [Open(true), Crash], Append(carries));
    assert [Open(true), Crash] + [Append(carries)] == [Open(true), Crash, Append(carries)];
    RunNext(f, [Open(true), Crash, Append(carries)], Open(true));
    assert [Open(true), Crash, Append(carries)] + [Open(true)] == [Open(true), Crash, Append(carries), Open(true)];
    LiveOpen(log + [carries]);
  }

  lemma CrashForgets(log: seq<bool>, carries: bool)
    ensures var f := Fresh(log, None, None);
            && Step(Step(f, Open(true)), Crash) == f && Step(f, Append(carries)) == Fresh(log + [carries], None, None)
  {
  }

  lemma LiveOpen(log: seq<bool>)
    ensures var w := Step(Fresh(log, None, None), Open(true)); HasCaughtUp(w) && w.log == log && w.handed == {}
  {
  }

  lemma NoActions(w: World)
    ensures Run(w, []) == w
  {
  }

  /** Over every run: the stored cursor is the initial one or tags an item that Next has
      returned; every entry below it has been returned; every entry below the resume point
      has been returned or is on its way to the caller, who gets what was received, all of
      it and in order. */
  lemma AtLeastOnce(log: seq<bool>, store: Option<Pos>, base: Option<Pos>, acts: seq<Action>)
    requires store.Some? || base.Some?
    ensures var w, anchor := Run(Fresh(log, store, base), acts), Anchor(store, base);
            && (w.store.Some? ==> w.store == store || w.store.value in w.tagged)
            && (w.store.Some? ==> forall i :: anchor <= i < w.store.value ==> i in w.handed)
            && (w.mem.resume.Some? && !w.stopped ==> forall i :: anchor <= i < w.mem.resume.value ==>
                  i in w.handed || Carries(Taken(w), i) || Carries(w.offered, i))
            && (!w.stopped ==> w.received == w.returned + AsSeq(Taken(w)) + AsSeq(w.offered))
            && w.returned <= w.received
  {
    hide Run;
    RunKeeps(log, store, base, acts);
    var w := Run(Fresh(log, store, base), acts);
    Assoc(w.returned, AsSeq(Taken(w)), AsSeq(w.offered));
  }

  lemma {:induction false} RunLedger(log: seq<bool>, store: Option<Pos>, base: Option<Pos>, acts: seq<Action>)
    ensures Ledger(Run(Fresh(log, store, base), acts), store)
  {
    hide Step, Ledger;
    if acts == [] {
      FreshLedger(log, store, base);
    } else {
      RunLedger(log, store, base, Pop(acts));
      StepLedger(Run(Fresh(log, store, base), Pop(acts)), Last(acts), store);
    }
  }

  lemma FreshLedger(log: seq<bool>, store: Option<Pos>, base: Option<Pos>)
    ensures Ledger(Fresh(log, store, base), store)
  {
  }

  /** Over every run, with or without an anchor: the stored cursor is the initial one or tags
      an item that Next has returned, and the caller gets what was received, all of it and in
      order. */
  lemma NothingReordered(log: seq<bool>, store: Option<Pos>, base: Option<Pos>, acts: seq<Action>)
    ensures var w := Run(Fresh(log, store, base), acts);
            && (w.store.Some? ==> w.store == store || w.store.value in w.tagged)
            && (!w.stopped ==> w.received == w.returned + AsSeq(Taken(w)) + AsSeq(w.offered))
            && w.returned <= w.received
  {
    hide Run;
    RunLedger(log, store, base, acts);
    var w := Run(Fresh(log, store, base), acts);
    Assoc(w.returned, AsSeq(Taken(w)), AsSeq(w.offered));
  }

  /** When a commit, explicit or on the next poll, reports success, the store holds the tag
      of the last item returned, if it had one. */
  lemma SuccessIsDurable(log: seq<bool>, store: Option<Pos>, base: Option<Pos>, acts: seq<Action>)
    ensures var w := Run(Fresh(log, store, base), acts);
            w.caller.Ready? && LastTag(w.returned).Some? ==> w.store == LastTag(w.returned)
  {
    hide Run;
    RunLedger(log, store, base, acts);
  }

  lemma RunNext(w: World, acts: seq<Action>, a: Action)
    ensures Run(w, acts + [a]) == Step(Run(w, acts), a)
  {
    assert Pop(acts + [a]) == acts && Last(acts + [a]) == a;
  }

  /** Whatever the run so far, a crash followed by a connect opens a stream that starts no
      later than the first entry the caller has not had. */
  lemma RestartMissesNothing(log: seq<bool>, store: Option<Pos>, base: Option<Pos>, acts: seq<Action>, head: bool)
    requires store.Some? || base.Some?
    ensures var w := Run(Fresh(log, store, base), acts + [Crash, Open(head)]);
            w.stream.Some? ==> forall i :: Anchor(store, base) <= i < w.stream.value ==> i in w.handed
  {
    hide Run;
    var f := Fresh(log, store, base);
    RunKeeps(log, store, base, acts);
    RunNext(f, acts, Crash);
    RunNext(f, acts + [Crash], Open(head));
    assert acts + [Crash, Open(head)] == acts + [Crash] + [Open(head)];
    SeededNeverLive(f, acts);
  }

  /** A caller who has caught up with the server has had every entry since the anchor. */
  lemma CaughtUp(log: seq<bool>, store: Option<Pos>, base: Option<Pos>, acts: seq<Action>)
    requires store.Some? || base.Some?
    ensures var w := Run(Fresh(log, store, base), acts); HasCaughtUp(w) ==> HadAll(w, Anchor(store, base))
  {
    hide Run;
    RunKeeps(log, store, base, acts);
  }

  /** Where a run that begins with a subscribe starts: at its anchor, or else at the position
      the server names. */
  function Origin(log: seq<bool>, store: Option<Pos>, base: Option<Pos>): Pos {
    if store.Some? || base.Some? then Anchor(store, base) else |log|
  }

  /** However such a run goes on, a caller who has caught up has had every entry from there on. */
  ghost predicate Complete(log: seq<bool>, store: Option<Pos>, base: Option<Pos>) {
    forall acts: seq<Action> ::
      var w := Run(Fresh(log, store, base), [Open(true)] + acts);
      HasCaughtUp(w) ==> HadAll(w, Origin(log, store, base))
  }

  /** That is so exactly when there is an anchor: without one, some run loses an entry. */
  lemma CompleteIff(log: seq<bool>, store: Option<Pos>, base: Option<Pos>)
    ensures Complete(log, store, base) <==> store.Some? || base.Some?
  {
    hide Run, HasCaughtUp;
    if store.Some? || base.Some? {
      forall acts: seq<Action> { CaughtUp(log, store, base, [Open(true)] + acts); }
    } else {
      UnseededCrashLoses(log, true);
      var rest := [Crash, Append(true), Open(true)];
      assert [Open(true)] + rest == [Open(true), Crash, Append(true), Open(true)];
      assert !HadAll(Run(Fresh(log, store, base), [Open(true)] + rest), |log|);
    }
  }
}
