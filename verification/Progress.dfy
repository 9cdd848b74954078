/** The other side of at-least-once: what the subscription does not ask for again. */
module Progress {
  import opened ScriptTypes
  import opened Resilience

  /** An item with a log entry that carries a cursor. */
  predicate Marked(w: World, it: Item) { it.entry.Some? && it.entry.value < |w.log| && w.log[it.entry.value] }

  /** On an open stream the high-water is at most the next entry, and it is the last cursor
      seen on the stream if there was one. */
  predicate InStep(w: World) {
    && (w.stream.Some? && w.mem.resume.Some? ==> w.mem.resume.value <= w.stream.value)
    && (w.stream.Some? && w.streamCursor.Some? ==> w.mem.resume == w.streamCursor)
  }

  /** What was received is in the log, and a marked entry is tagged with its own cursor. */
  predicate Tagged(w: World) {
    forall i :: 0 <= i < |w.received| && w.received[i].entry.Some? ==>
                  && w.received[i].entry.value < |w.log|
                  && (w.log[w.received[i].entry.value] ==> w.received[i].tag == Some(w.received[i].entry.value + 1))
  }

  lemma CallLeaves(w: World, a: Action)
    ensures var v := Call(w, a);
            && v.log == w.log && v.mem.resume == w.mem.resume && v.stream == w.stream
            && v.streamCursor == w.streamCursor && v.received == w.received && v.stopped == w.stopped
  {
  }

  /** One step takes at most one item off the stream, the next entry if it is an entry; it
      lowers the high-water only at a lag notice; and a stream that it opens with a
      high-water starts there. */
  predicate Moves(w: World, v: World, a: Action) {
    && v.log == w.log && InStep(v)
    && (v.received == w.received || (|v.received| == |w.received| + 1 && v.received[..|w.received|] == w.received))
    && (|v.received| > |w.received| && Last(v.received).entry.Some? ==>
          && w.stream == Last(v.received).entry && w.stream.value < |w.log|
          && (w.log[w.stream.value] ==>
                Last(v.received).tag == Some(w.stream.value + 1) && v.mem.resume == Some(w.stream.value + 1)))
    && (w.mem.resume.Some? ==> v.mem.resume.Some?)
    && (w.mem.resume.Some? && v.mem.resume.value < w.mem.resume.value ==> a.Lag? && v.mem.resume == a.cursor)
    && (w.stream.None? && v.stream.Some? && w.mem.resume.Some? ==> v.stream == w.mem.resume)
  }

  lemma SeedMoves(w: World, a: Action)
    requires InStep(w) && (a.Seed? || a.Open?)
    ensures Moves(w, Pump(w, a), a)
  {
  }

  lemma RecvMoves(w: World)
    requires InStep(w)
    ensures Moves(w, Pump(w, Recv), Recv)
  {
    if w.stream.Some? && w.stream.value < |w.log| {
      var k := w.stream.value;
      var v := Received(w, k);
      assert v.received[..|w.received|] == w.received;
    }
  }

  lemma OtherMoves(w: World, a: Action)
    requires InStep(w) && !a.Seed? && !a.Open? && !a.Recv?
    ensures Moves(w, Pump(w, a), a)
  {
    var v := Pump(w, a);
    if |v.received| > |w.received| { assert v.received[..|w.received|] == w.received; }
  }

  lemma StepMoves(w: World, a: Action)
    requires InStep(w) && !a.Crash? && !a.Append? && !a.Close?
    ensures Moves(w, Step(w, a), a)
  {
    hide Pump, Call;
    var v := Pump(w, a);
    CallLeaves(v, a);
    if a.Seed? || a.Open? { SeedMoves(w, a); } else if a.Recv? { RecvMoves(w); } else { OtherMoves(w, a); }
  }

  // ---- Over whole runs -----------------------------------------------------------------

  /** In a process that is not restarted: after an entry that carries a cursor, nothing at or
      below it is below the high-water, and nothing at or below it was received later. */
  predicate Once(w: World) {
    && (forall i :: 0 <= i < |w.received| && Marked(w, w.received[i]) ==>
                      w.mem.resume.Some? && w.received[i].entry.value < w.mem.resume.value)
    && (forall i, j :: 0 <= i < j < |w.received| && Marked(w, w.received[i]) && w.received[j].entry.Some? ==>
                         w.received[i].entry.value < w.received[j].entry.value)
  }

  predicate Calm(a: Action) { !a.Crash? && !a.Lag? }

  lemma MoveTags(w: World, v: World, a: Action)
    requires Moves(w, v, a) && Tagged(w)
    ensures Tagged(v)
  {
    assert forall i :: 0 <= i < |w.received| ==> v.received[..|w.received|][i] == w.received[i] == v.received[i];
  }

  lemma MoveOnce(w: World, v: World, a: Action)
    requires InStep(w) && Moves(w, v, a) && Calm(a) && Tagged(w) && Once(w)
    ensures Once(v)
  {
    var n := |w.received|;
    assert forall i :: 0 <= i < n ==> v.received[i] == w.received[i];
    forall i | 0 <= i < |v.received| && Marked(v, v.received[i])
      ensures v.mem.resume.Some? && v.received[i].entry.value < v.mem.resume.value
    {
      if i < n { assert Marked(w, w.received[i]); }
    }
    forall i, j | 0 <= i < j < |v.received| && Marked(v, v.received[i]) && v.received[j].entry.Some?
      ensures v.received[i].entry.value < v.received[j].entry.value
    {
      assert Marked(w, w.received[i]);
    }
  }

  lemma QuietKeeps(w: World, a: Action)
    requires a.Append? || a.Close?
    ensures InStep(w) ==> InStep(Step(w, a))
    ensures Tagged(w) ==> Tagged(Step(w, a))
    ensures Tagged(w) && Once(w) ==> Once(Step(w, a))
  {
    hide Pump, Call;
    var v := Step(w, a);
    if Tagged(w) {
      assert forall i :: 0 <= i < |w.received| ==> (Marked(v, v.received[i]) <==> Marked(w, w.received[i]));
    }
  }

  lemma CrashKeeps(w: World)
    ensures InStep(Step(w, Crash)) && Tagged(Step(w, Crash))
  {
  }

  /** In every run, a received entry that carries a cursor is tagged with the cursor after it. */
  lemma {:induction false} EntriesTagged(log: seq<bool>, store: Option<Pos>, base: Option<Pos>, acts: seq<Action>)
    ensures var w := Run(Fresh(log, store, base), acts); InStep(w) && Tagged(w)
  {
    hide Step, InStep, Tagged, Moves;
    if acts == [] {
      FreshKeeps(log, store, base);
    } else {
      EntriesTagged(log, store, base, Pop(acts));
      var w, a := Run(Fresh(log, store, base), Pop(acts)), Last(acts);
      if a.Crash? {
        CrashKeeps(w);
      } else if a.Append? || a.Close? {
        QuietKeeps(w, a);
      } else {
        StepMoves(w, a);
        MoveTags(w, Step(w, a), a);
        MoveInStep(w, Step(w, a), a);
      }
    }
  }

  lemma MoveInStep(w: World, v: World, a: Action)
    requires Moves(w, v, a)
    ensures InStep(v)
  {
  }

  lemma FreshKeeps(log: seq<bool>, store: Option<Pos>, base: Option<Pos>)
    ensures var w := Fresh(log, store, base); InStep(w) && Tagged(w) && Once(w)
  {
  }

  lemma {:induction false} CalmOnce(log: seq<bool>, store: Option<Pos>, base: Option<Pos>, acts: seq<Action>)
    requires forall i :: 0 <= i < |acts| ==> Calm(acts[i])
    ensures Once(Run(Fresh(log, store, base), acts))
  {
    hide Step, InStep, Tagged, Moves, Once;
    if acts == [] {
      FreshKeeps(log, store, base);
    } else {
      CalmOnce(log, store, base, Pop(acts));
      EntriesTagged(log, store, base, Pop(acts));
      var w, a := Run(Fresh(log, store, base), Pop(acts)), Last(acts);
      assert Calm(acts[|acts| - 1]);
      if a.Append? || a.Close? {
        QuietKeeps(w, a);
      } else {
        StepMoves(w, a);
        MoveOnce(w, Step(w, a), a);
      }
    }
  }

  /** In a run with no crash and no lag notice, whatever drops and reconnects there are: once
      an entry that carries a cursor was received, no entry up to it is received again; so
      such an entry is received at most once, and they come in strictly increasing order. */
  lemma ReceivedOnce(log: seq<bool>, store: Option<Pos>, base: Option<Pos>, acts: seq<Action>, i: nat, j: nat)
    requires forall k :: 0 <= k < |acts| ==> Calm(acts[k])
    ensures var w := Run(Fresh(log, store, base), acts);
            i < j < |w.received| && Marked(w, w.received[i]) && w.received[j].entry.Some? ==>
              w.received[i].entry.value < w.received[j].entry.value
  {
    hide Run;
    CalmOnce(log, store, base, acts);
  }

  // ---- From any point on ---------------------------------------------------------------

  /** Lag notices that name a position name one from c on. */
  predicate NamesFrom(a: Action, c: Pos) { !a.Crash? && (a.Lag? && a.cursor.Some? ==> a.cursor.value >= c) }

  /** The high-water is at c or above, and so is the stream. */
  predicate AtLeast(w: World, c: Pos) {
    InStep(w) && w.mem.resume.Some? && w.mem.resume.value >= c && (w.stream.Some? ==> w.stream.value >= c)
  }

  predicate OnlyFrom(before: seq<Item>, after: seq<Item>, c: Pos) {
    && before <= after
    && forall i :: |before| <= i < |after| && after[i].entry.Some? ==> after[i].entry.value >= c
  }

  lemma StepOnward(w: World, a: Action, c: Pos)
    requires AtLeast(w, c) && NamesFrom(a, c)
    ensures AtLeast(Step(w, a), c) && OnlyFrom(w.received, Step(w, a).received, c)
  {
    hide Pump, Call;
    if a.Append? || a.Close? {
      QuietKeeps(w, a);
    } else {
      StepMoves(w, a);
      StreamOnward(w, a);
    }
  }

  lemma StreamOnward(w: World, a: Action)
    requires !a.Crash? && !a.Append? && !a.Close?
    ensures var v := Step(w, a); v.stream.Some? && w.stream.Some? ==> v.stream.value >= w.stream.value
  {
    hide Call;
    CallLeaves(Pump(w, a), a);
  }

  /** From any point of any run: if the high-water is at c, then until the next crash, and as
      long as no lag notice names a position below c, nothing below c is received again,
      however often the stream drops and reopens. */
  lemma {:induction false} NothingBelowAgain(w: World, acts: seq<Action>, c: Pos)
    requires AtLeast(w, c) && forall i :: 0 <= i < |acts| ==> NamesFrom(acts[i], c)
    ensures AtLeast(Run(w, acts), c) && OnlyFrom(w.received, Run(w, acts).received, c)
  {
    hide Step, AtLeast;
    if acts != [] {
      NothingBelowAgain(w, Pop(acts), c);
      assert NamesFrom(acts[|acts| - 1], c);
      StepOnward(Run(w, Pop(acts)), Last(acts), c);
    }
  }

  /** A reconnect within the same process starts at the in-memory high-water, whatever the
      store holds. */
  lemma ReopensAtHighWater(log: seq<bool>, store: Option<Pos>, base: Option<Pos>, acts: seq<Action>, head: bool, c: Pos)
    requires var w := Run(Fresh(log, store, base), acts); w.mem.resume == Some(c) && w.stream.None?
    ensures var v := Run(Fresh(log, store, base), acts + [Open(head)]); v.stream.Some? ==> v.stream == Some(c)
  {
    hide Run, Step, InStep;
    EntriesTagged(log, store, base, acts);
    RunNext(Fresh(log, store, base), acts, Open(head));
    StepMoves(Run(Fresh(log, store, base), acts), Open(head));
  }

  /** After a lag notice that names p, nothing below p is received again, as long as the later
      notices name nothing below it either. */
  lemma AfterLag(log: seq<bool>, store: Option<Pos>, base: Option<Pos>, acts: seq<Action>, p: Pos, more: seq<Action>)
    requires forall i :: 0 <= i < |more| ==> NamesFrom(more[i], p)
    ensures var w, v := Run(Fresh(log, store, base), acts), Run(Fresh(log, store, base), acts + [Lag(Some(p))]);
            w.stream.Some? && v.stream.None? ==> OnlyFrom(v.received, Run(v, more).received, p)
  {
    hide Run, Step, InStep, OnlyFrom;
    var f := Fresh(log, store, base);
    var w := Run(f, acts);
    EntriesTagged(log, store, base, acts + [Lag(Some(p))]);
    RunNext(f, acts, Lag(Some(p)));
    LagNames(w, p);
    if w.stream.Some? && Step(w, Lag(Some(p))).stream.None? { NothingBelowAgain(Step(w, Lag(Some(p))), more, p); }
  }

  lemma LagNames(w: World, p: Pos)
    ensures var v := Step(w, Lag(Some(p))); w.stream.Some? && v.stream.None? ==> v.mem.resume == Some(p)
  {
    hide Call;
    CallLeaves(Pump(w, Lag(Some(p))), Lag(Some(p)));
  }
}
