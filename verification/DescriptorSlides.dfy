/** Sliding a descriptor's window while the node's refusals are still on their way: what the
    mirror falls back to is what the node holds. */
module DescriptorSlides {
  import opened ScriptTypes
  import opened Mirror

  const HISTORY := 8

  /** One descriptor in the mirror: the latest window, and the earlier ones, oldest first. */
  datatype Slot = Slot(cur: Option<Window>, history: seq<Window>)

  const VACANT := Slot(None, [])

  function Without(s: seq<Window>, w: Window): seq<Window> {
    if s == [] then [] else if Last(s) == w then Without(Pop(s), w) else Without(Pop(s), w) + [Last(s)]
  }

  function Slide(s: Slot, w: Window): Slot {
    if s.cur.None? then Slot(Some(w), [])
    else if s.cur.value == w then s
    else var h := Without(s.history, w) + [s.cur.value]; Slot(Some(w), if |h| > HISTORY then h[1..] else h)
  }

  function Refuse(s: Slot, w: Window, kept: bool): Slot {
    if s.cur != Some(w) then Slot(s.cur, Without(s.history, w))
    else if !kept then VACANT
    else if s.history == [] then s
    else Slot(Some(Last(s.history)), Pop(s.history))
  }

  method Filter(s: seq<Window>, w: Window) returns (r: seq<Window>)
    ensures r == Without(s, w)
  {
    r := [];
    for i := 0 to |s|
      invariant r == Without(s[..i], w)
    {
      assert Pop(s[..i + 1]) == s[..i] && Last(s[..i + 1]) == s[i];
      if s[i] != w { r := r + [s[i]]; }
    }
    assert s[..|s|] == s;
  }

  // ---- The node and the run ------------------------------------------------------------

  datatype Msg = Ask(window: Window) | Remove

  type Verdict = nat -> bool    // does the node accept the i-th message?

  /** The node handles messages in order and keeps the latest window it accepted. */
  function NodeHolds(msgs: seq<Msg>, accept: Verdict): Option<Window> {
    if msgs == [] then None
    else match Last(msgs)
    case Remove => None
    case Ask(w) => if accept(|msgs| - 1) then Some(w) else NodeHolds(Pop(msgs), accept)
  }

  /** Messages sent, how many of them are answered, and the mirror. An acceptance is silent;
      a refusal says whether the node still holds an earlier window. */
  datatype State = State(msgs: seq<Msg>, answered: nat, slot: Slot)

  datatype Act = Send(msg: Msg) | Answer

  const START := State([], 0, VACANT)

  function Next(s: State, a: Act, accept: Verdict): State {
    match a
    case Send(Ask(w)) => State(s.msgs + [Ask(w)], s.answered, Slide(s.slot, w))
    case Send(Remove) => State(s.msgs + [Remove], s.answered, VACANT)
    case Answer =>
      if s.answered >= |s.msgs| then s
      else State(s.msgs, s.answered + 1,
                 match s.msgs[s.answered]
                 case Remove => s.slot
                 case Ask(w) => if accept(s.answered) then s.slot
                                else Refuse(s.slot, w, NodeHolds(s.msgs[..s.answered], accept).Some?))
  }

  /** Windows asked for since the last removal: those accepted among the first n messages, */
  function Accepted(msgs: seq<Msg>, n: nat, accept: Verdict): seq<Window> {
    if msgs == [] || Last(msgs).Remove? then []
    else Accepted(Pop(msgs), n, accept) + if |msgs| - 1 < n && accept(|msgs| - 1) then [Last(msgs).window] else []
  }

  /** and those not answered yet. */
  function Unanswered(msgs: seq<Msg>, n: nat): seq<Window> {
    if msgs == [] || Last(msgs).Remove? then []
    else Unanswered(Pop(msgs), n) + if |msgs| - 1 >= n then [Last(msgs).window] else []
  }

  /** All windows asked for since the last removal. */
  function Asks(msgs: seq<Msg>): seq<Window> {
    if msgs == [] || Last(msgs).Remove? then [] else Asks(Pop(msgs)) + [Last(msgs).window]
  }

  function Run(acts: seq<Act>, accept: Verdict): State {
    if acts == [] then START else Next(Run(Pop(acts), accept), Last(acts), accept)
  }

  /** What a run sends and how much of it is answered, whatever the verdict. */
  function Sent(acts: seq<Act>): seq<Msg> {
    if acts == [] then [] else Sent(Pop(acts)) + if Last(acts).Send? then [Last(acts).msg] else []
  }

  function Answered(acts: seq<Act>): nat {
    if acts == [] then 0
    else Answered(Pop(acts)) + if Last(acts).Answer? && Answered(Pop(acts)) < |Sent(Pop(acts))| then 1 else 0
  }

  /** Room for one more window: fewer than eight are unanswered, or at most eight were asked
      for since the last removal. */
  predicate HasRoom(msgs: seq<Msg>, n: nat) { |Unanswered(msgs, n)| < 8 || |Asks(msgs)| <= 8 }

  /** Every window since the last removal was asked for when there was room. */
  predicate Roomy(acts: seq<Act>) {
    if acts == [] then true
    else match Last(acts)
    case Send(Remove) => true
    case Answer => Roomy(Pop(acts))
    case Send(Ask(_)) => Roomy(Pop(acts)) && HasRoom(Sent(Pop(acts)), Answered(Pop(acts)))
  }

  // ---- What every step keeps -----------------------------------------------------------

  function Windows(s: Slot): seq<Window> { if s.cur.None? then [] else s.history + [s.cur.value] }

  predicate Distinct(msgs: seq<Msg>) {
    forall i, j :: 0 <= i < j < |msgs| && msgs[i].Ask? ==> msgs[i] != msgs[j]
  }

  /** The mirror holds every unanswered window, and before them the latest accepted ones, at
      least one if there is any. */
  ghost predicate Follows(s: Slot, a: seq<Window>, u: seq<Window>) {
    && (s.cur.None? ==> s.history == [])
    && exists n: nat :: Tail(n, s, a, u)
  }

  ghost predicate Tail(n: nat, s: Slot, a: seq<Window>, u: seq<Window>) {
    n <= |a| && Windows(s) == a[|a| - n..] + u && (a != [] ==> n > 0)
  }

  ghost predicate Inv(s: State, accept: Verdict) {
    && s.answered <= |s.msgs| && Distinct(s.msgs)
    && Follows(s.slot, Accepted(s.msgs, s.answered, accept), Unanswered(s.msgs, s.answered))
  }

  lemma {:induction false} NotAsked(msgs: seq<Msg>, n: nat, accept: Verdict, w: Window)
    requires Ask(w) !in msgs
    ensures w !in Accepted(msgs, n, accept) && w !in Unanswered(msgs, n)
  {
    if msgs != [] {
      NotAsked(Pop(msgs), n, accept, w);
      assert Last(msgs) in msgs;
    }
  }

  lemma {:induction false} WithoutAbsent(s: seq<Window>, w: Window)
    requires w !in s
    ensures Without(s, w) == s
  {
    if s != [] {
      AbsentParts(s, w);
      WithoutAbsent(Pop(s), w);
      PopLast(s);
    }
  }

  lemma AbsentParts(s: seq<Window>, w: Window)
    requires s != [] && w !in s
    ensures w !in Pop(s) && Last(s) != w
  {
    assert Last(s) in s;
    assert forall x :: x in Pop(s) ==> x in s;
  }

  lemma PopLast(s: seq<Window>)
    requires s != []
    ensures Pop(s) + [Last(s)] == s
  {
  }

  lemma {:induction false} WithoutAppend(a: seq<Window>, b: seq<Window>, w: Window)
    ensures Without(a + b, w) == Without(a, w) + Without(b, w)
  {
    if b == [] {
      assert a + b == a;
    } else {
      assert Pop(a + b) == a + Pop(b);
      WithoutAppend(a, Pop(b), w);
    }
  }

  /** A new window pushes at most windows that are no longer needed out of the history. */
  lemma SlideFollows(s: Slot, a: seq<Window>, u: seq<Window>, w: Window)
    requires Follows(s, a, u) && w !in a && w !in u && (|u| < HISTORY || |a| + |u| <= HISTORY)
    ensures Follows(Slide(s, w), a, u + [w])
  {
    hide Slide, Windows;
    var n: nat :| Tail(n, s, a, u);
    var kept := a[|a| - n..];
    assert w !in kept + u;
    SlidePushes(s, w);
    var t, all := Slide(s, w), kept + u;
    if |all| <= HISTORY {
      Assoc(kept, u, [w]);
      assert Tail(n, t, a, u + [w]);
    } else {
      assert all[1..] == kept[1..] + u && kept[1..] == a[|a| - (n - 1)..];
      Assoc(kept[1..], u, [w]);
      assert Tail(n - 1, t, a, u + [w]);
    }
  }

  lemma SlidePushes(s: Slot, w: Window)
    requires (s.cur.None? ==> s.history == []) && w !in Windows(s)
    ensures Slide(s, w).cur.Some?
    ensures Windows(Slide(s, w)) == (if |Windows(s)| <= HISTORY then Windows(s) else Windows(s)[1..]) + [w]
  {
    if s.cur.Some? {
      var all := s.history + [s.cur.value];
      assert forall x :: x in s.history ==> x in all;
      assert s.cur.value in all;
      WithoutAbsent(s.history, w);
    }
  }

  /** A refusal of the oldest unanswered window takes exactly that window out. */
  lemma RefuseFollows(s: Slot, a: seq<Window>, u: seq<Window>, w: Window)
    requires Follows(s, a, [w] + u) && w !in a && w !in u
    ensures Follows(Refuse(s, w, a != []), a, u)
  {
    hide Follows, Refuse, Windows, Ends;
    var kept := KeptOf(s, a, [w] + u);
    EndsAbsent(kept, a, w);
    RefuseTakes(s, kept, u, w, a != []);
    KeptFollows(Refuse(s, w, a != []), a, u, kept);
  }

  predicate Ends(kept: seq<Window>, a: seq<Window>) {
    |kept| <= |a| && kept == a[|a| - |kept|..] && (a != [] ==> kept != [])
  }

  lemma KeptOf(s: Slot, a: seq<Window>, u: seq<Window>) returns (kept: seq<Window>)
    requires Follows(s, a, u)
    ensures Ends(kept, a) && Windows(s) == kept + u
  {
    hide Windows;
    var n: nat :| Tail(n, s, a, u);
    kept := a[|a| - n..];
  }

  lemma KeptFollows(s: Slot, a: seq<Window>, u: seq<Window>, kept: seq<Window>)
    requires Ends(kept, a) && Windows(s) == kept + u && (s.cur.None? ==> s.history == [])
    ensures Follows(s, a, u)
  {
    hide Windows;
    assert Tail(|kept|, s, a, u);
  }

  lemma EndsAbsent(kept: seq<Window>, a: seq<Window>, w: Window)
    requires Ends(kept, a) && w !in a
    ensures w !in kept && (kept == [] <==> a == [])
  {
  }

  lemma RefuseTakes(s: Slot, kept: seq<Window>, u: seq<Window>, w: Window, held: bool)
    requires Windows(s) == kept + ([w] + u) && w !in kept && w !in u && (held <==> kept != [])
    ensures var t := Refuse(s, w, held); Windows(t) == kept + u && (t.cur.None? ==> t.history == [])
  {
    hide Refuse, Windows;
    if u == [] {
      assert kept + ([w] + u) == kept + [w] && kept + u == kept;
      RefuseLast(s, kept, w);
    } else {
      RefuseEarlier(s, kept, u, w, held);
    }
  }

  lemma RefuseLast(s: Slot, kept: seq<Window>, w: Window)
    requires Windows(s) == kept + [w]
    ensures var t := Refuse(s, w, kept != []); Windows(t) == kept && (t.cur.None? ==> t.history == [])
  {
    var all := s.history + [s.cur.value];
    assert Last(all) == w && Pop(all) == s.history && Pop(kept + [w]) == kept;
    if kept != [] { assert Pop(kept) + [Last(kept)] == kept; }
  }

  lemma RefuseEarlier(s: Slot, kept: seq<Window>, u: seq<Window>, w: Window, held: bool)
    requires u != [] && w !in u && w !in kept && Windows(s) == kept + ([w] + u)
    ensures var t := Refuse(s, w, held); Windows(t) == kept + u && t.cur.Some?
  {
    hide Without;
    var all := s.history + [s.cur.value];
    var early := kept + ([w] + Pop(u));
    EndsIn(kept, w, u);
    assert Last(all) == Last(u) && Pop(all) == s.history && Pop(early + [Last(u)]) == early;
    assert Last(u) in u && forall x :: x in Pop(u) ==> x in u;
    WithoutMiddle(kept, w, Pop(u));
    assert (kept + Pop(u)) + [Last(u)] == kept + u;
  }

  lemma EndsIn(kept: seq<Window>, w: Window, u: seq<Window>)
    requires u != []
    ensures kept + ([w] + u) == (kept + ([w] + Pop(u))) + [Last(u)]
  {
    assert u == Pop(u) + [Last(u)];
  }

  lemma WithoutMiddle(a: seq<Window>, w: Window, b: seq<Window>)
    requires w !in a && w !in b
    ensures Without(a + ([w] + b), w) == a + b
  {
    hide Without;
    WithoutAppend(a, [w] + b, w);
    WithoutAppend([w], b, w);
    WithoutAbsent(a, w);
    WithoutAbsent(b, w);
    WithoutOnly(w);
    assert [] + b == b;
  }

  lemma OthersIgnored(s: Slot, a: seq<Window>, u: seq<Window>, w: Window, kept: bool)
    requires Follows(s, a, u) && w !in a && w !in u
    ensures Refuse(s, w, kept) == s
  {
    var n: nat :| Tail(n, s, a, u);
    if s.cur.Some? {
      assert s.cur.value in Windows(s);
      assert forall x :: x in s.history ==> x in Windows(s);
    }
    WithoutAbsent(s.history, w);
  }

  /** Whether a removal follows the first n messages. */
  predicate RemovedSince(msgs: seq<Msg>, n: nat) { exists i :: n <= i < |msgs| && msgs[i].Remove? }

  lemma {:induction false} NoneAfter(msgs: seq<Msg>, n: nat)
    requires |msgs| <= n
    ensures Unanswered(msgs, n) == []
  {
    if msgs != [] { NoneAfter(Pop(msgs), n); }
  }

  /** How the two lists change when message n is answered. */
  lemma {:induction false} AnswerMoves(msgs: seq<Msg>, n: nat, accept: Verdict)
    requires n < |msgs|
    ensures RemovedSince(msgs, n) ==>
              Accepted(msgs, n + 1, accept) == Accepted(msgs, n, accept) &&
                Unanswered(msgs, n + 1) == Unanswered(msgs, n)
    ensures !RemovedSince(msgs, n) ==>
              && msgs[n].Ask? && Unanswered(msgs, n) == [msgs[n].window] + Unanswered(msgs, n + 1)
              && Accepted(msgs, n + 1, accept) == Accepted(msgs, n, accept) + if accept(n) then [msgs[n].window] else []
  {
    var m, last := Pop(msgs), Last(msgs);
    if last.Remove? {
      assert msgs[|msgs| - 1].Remove?;
    } else if n == |msgs| - 1 {
      assert !RemovedSince(msgs, n);
      NoneAfter(m, n);
      NoneAfter(m, n + 1);
      SameAccepted(m, n, accept);
      assert [] + [last.window] == [last.window] + [];
    } else {
      AnswerMoves(m, n, accept);
      assert forall i :: n <= i < |m| ==> m[i] == msgs[i];
      assert RemovedSince(m, n) <==> RemovedSince(msgs, n);
      if !RemovedSince(m, n) {
        assert ([msgs[n].window] + Unanswered(m, n + 1)) + [last.window] ==
          [msgs[n].window] + (Unanswered(m, n + 1) + [last.window]);
      }
    }
  }

  lemma {:induction false} SameAccepted(msgs: seq<Msg>, n: nat, accept: Verdict)
    requires |msgs| <= n
    ensures Accepted(msgs, n, accept) == Accepted(msgs, n + 1, accept)
  {
    if msgs != [] { SameAccepted(Pop(msgs), n, accept); }
  }

  /** What the node holds is the last window accepted since the last removal, */
  lemma {:induction false} HoldsLast(msgs: seq<Msg>, accept: Verdict)
    ensures var a := Accepted(msgs, |msgs|, accept);
            NodeHolds(msgs, accept) == if a == [] then None else Some(Last(a))
  {
    if msgs != [] {
      HoldsLast(Pop(msgs), accept);
      SameAccepted(Pop(msgs), |msgs| - 1, accept);
    }
  }

  /** and what follows the first n messages does not count, unless it is a removal. */
  lemma {:induction false} AcceptedAmong(msgs: seq<Msg>, n: nat, accept: Verdict)
    requires n <= |msgs| && !RemovedSince(msgs, n)
    ensures Accepted(msgs, n, accept) == Accepted(msgs[..n], n, accept)
  {
    if n == |msgs| {
      assert msgs[..n] == msgs;
    } else {
      var m := Pop(msgs);
      assert msgs[|msgs| - 1].Ask?;
      assert forall i :: n <= i < |m| ==> m[i] == msgs[i];
      AcceptedAmong(m, n, accept);
      assert msgs[..n] == m[..n];
      assert Accepted(m, n, accept) + [] == Accepted(m, n, accept);
    }
  }

  lemma {:induction false} AfterRemoval(msgs: seq<Msg>, n: nat, accept: Verdict, w: Window)
    requires RemovedSince(msgs, n) && n < |msgs| && msgs[n] == Ask(w) && Distinct(msgs)
    ensures w !in Accepted(msgs, n, accept) && w !in Unanswered(msgs, n)
  {
    var m := Pop(msgs);
    if !Last(msgs).Remove? {
      assert forall i :: n <= i < |m| ==> m[i] == msgs[i];
      var i :| n <= i < |msgs| && msgs[i].Remove?;
      assert m[i].Remove?;
      AfterRemoval(m, n, accept, w);
      assert msgs[n] != msgs[|msgs| - 1];
    }
  }

  lemma {:induction false} OnceOnly(msgs: seq<Msg>, n: nat, accept: Verdict, w: Window)
    requires !RemovedSince(msgs, n) && n < |msgs| && msgs[n] == Ask(w) && Distinct(msgs)
    ensures w !in Accepted(msgs, n, accept) && w !in Unanswered(msgs, n + 1)
  {
    var m := Pop(msgs);
    if n == |msgs| - 1 {
      NoneAfter(m, n + 1);
      assert forall i :: 0 <= i < |m| ==> m[i] == msgs[i] && m[i] != msgs[n];
      NotAsked(m, n, accept, w);
    } else {
      assert msgs[|msgs| - 1].Ask?;
      assert forall i :: n <= i < |m| ==> m[i] == msgs[i];
      OnceOnly(m, n, accept, w);
      assert msgs[n] != msgs[|msgs| - 1];
    }
  }

  lemma AnswerKeeps(s: State, accept: Verdict)
    requires Inv(s, accept)
    ensures Inv(Next(s, Answer, accept), accept)
  {
    hide Accepted, Unanswered, Follows, NodeHolds, Refuse;
    if s.answered == |s.msgs| { return; }
    var n, a, u := s.answered, Accepted(s.msgs, s.answered, accept), Unanswered(s.msgs, s.answered);
    AnswerMoves(s.msgs, n, accept);
    match s.msgs[n]
    case Remove => assert RemovedSince(s.msgs, n);
    case Ask(w) =>
      if RemovedSince(s.msgs, n) {
        AfterRemoval(s.msgs, n, accept, w);
        OthersIgnored(s.slot, a, u, w, NodeHolds(s.msgs[..n], accept).Some?);
      } else if accept(n) {
        AcceptFollows(s.slot, a, Unanswered(s.msgs, n + 1), w);
      } else {
        AcceptedAmong(s.msgs, n, accept);
        HoldsLast(s.msgs[..n], accept);
        OnceOnly(s.msgs, n, accept, w);
        assert a + [] == a;
        RefuseFollows(s.slot, a, Unanswered(s.msgs, n + 1), w);
      }
  }

  lemma AcceptFollows(s: Slot, a: seq<Window>, u: seq<Window>, w: Window)
    requires Follows(s, a, [w] + u)
    ensures Follows(s, a + [w], u)
  {
    var n: nat :| Tail(n, s, a, [w] + u);
    var kept := a[|a| - n..];
    assert (a + [w])[|a| - n..] == kept + [w];
    assert kept + ([w] + u) == (kept + [w]) + u;
    assert Tail(n + 1, s, a + [w], u);
  }

  lemma AskKeeps(s: State, w: Window, accept: Verdict)
    requires Inv(s, accept) && Ask(w) !in s.msgs && HasRoom(s.msgs, s.answered)
    ensures Inv(Next(s, Send(Ask(w)), accept), accept)
  {
    hide Follows, Slide, Accepted, Unanswered, Asks, Distinct;
    var n := s.answered;
    AskAdds(s.msgs, w, n, accept);
    AskDistinct(s.msgs, w);
    NotAsked(s.msgs, n, accept, w);
    AtMostAsked(s.msgs, n, accept);
    SlideFollows(s.slot, Accepted(s.msgs, n, accept), Unanswered(s.msgs, n), w);
  }

  /** How the lists change when one more window is asked for. */
  lemma AskAdds(msgs: seq<Msg>, w: Window, n: nat, accept: Verdict)
    requires n <= |msgs|
    ensures var more := msgs + [Ask(w)];
            && Accepted(more, n, accept) == Accepted(msgs, n, accept)
            && Unanswered(more, n) == Unanswered(msgs, n) + [w] && Asks(more) == Asks(msgs) + [w]
  {
    var more := msgs + [Ask(w)];
    assert Pop(more) == msgs && Last(more) == Ask(w);
    assert Accepted(msgs, n, accept) + [] == Accepted(msgs, n, accept);
  }

  lemma AskDistinct(msgs: seq<Msg>, w: Window)
    ensures Distinct(msgs + [Ask(w)]) <==> Distinct(msgs) && Ask(w) !in msgs
  {
    var more := msgs + [Ask(w)];
    assert forall i :: 0 <= i < |msgs| ==> more[i] == msgs[i];
    if Distinct(more) {
      assert forall i :: 0 <= i < |msgs| && msgs[i] == Ask(w) ==> more[i] == more[|msgs|];
    }
  }

  lemma RemoveDistinct(msgs: seq<Msg>)
    ensures Distinct(msgs + [Remove]) <==> Distinct(msgs)
  {
    var more := msgs + [Remove];
    assert forall i :: 0 <= i < |msgs| ==> more[i] == msgs[i];
  }

  lemma {:induction false} AtMostAsked(msgs: seq<Msg>, n: nat, accept: Verdict)
    ensures |Accepted(msgs, n, accept)| + |Unanswered(msgs, n)| <= |Asks(msgs)|
  {
    if msgs != [] { AtMostAsked(Pop(msgs), n, accept); }
  }

  lemma RemoveKeeps(s: State, accept: Verdict)
    requires s.answered <= |s.msgs| && Distinct(s.msgs)
    ensures Inv(Next(s, Send(Remove), accept), accept)
  {
    hide Follows, Distinct;
    RemoveDistinct(s.msgs);
    VacantFollows();
  }

  lemma VacantFollows()
    ensures Follows(VACANT, [], [])
  {
    assert Tail(0, VACANT, [], []);
  }

  lemma {:induction false} RunShape(acts: seq<Act>, accept: Verdict)
    ensures Run(acts, accept).msgs == Sent(acts) && Run(acts, accept).answered == Answered(acts) <= |Sent(acts)|
  {
    hide Slide, Refuse, NodeHolds;
    if acts != [] { RunShape(Pop(acts), accept); }
  }

  lemma SentBefore(acts: seq<Act>)
    requires acts != [] && Distinct(Sent(acts))
    ensures Distinct(Sent(Pop(acts)))
    ensures Last(acts).Send? && Last(acts).msg.Ask? ==> Last(acts).msg !in Sent(Pop(acts))
  {
    hide Distinct;
    var msgs := Sent(Pop(acts));
    match Last(acts)
    case Answer => assert msgs + [] == msgs;
    case Send(Ask(w)) => AskDistinct(msgs, w);
    case Send(Remove) => RemoveDistinct(msgs);
  }

  lemma {:induction false} RunKeeps(acts: seq<Act>, accept: Verdict)
    requires Distinct(Sent(acts)) && Roomy(acts)
    ensures Inv(Run(acts, accept), accept)
  {
    hide Follows, Next, Distinct, HasRoom;
    if acts == [] {
      StartKeeps(accept);
    } else {
      var s := Run(Pop(acts), accept);
      SentBefore(acts);
      RunShape(Pop(acts), accept);
      match Last(acts)
      case Send(Remove) => RemoveKeeps(s, accept);
      case Send(Ask(w)) =>
        RunKeeps(Pop(acts), accept);
        AskKeeps(s, w, accept);
      case Answer =>
        RunKeeps(Pop(acts), accept);
        AnswerKeeps(s, accept);
    }
  }

  lemma StartKeeps(accept: Verdict)
    ensures Inv(START, accept)
  {
    hide Follows;
    VacantFollows();
  }

  /** Once everything is answered, the mirror's window is the one the node holds: the latest
      it accepted, or none. */
  lemma MirrorMatchesNode(acts: seq<Act>, accept: Verdict)
    requires Distinct(Sent(acts)) && Roomy(acts) && Answered(acts) == |Sent(acts)|
    ensures Run(acts, accept).slot.cur == NodeHolds(Sent(acts), accept)
  {
    hide Run, NodeHolds, Accepted, Unanswered;
    RunKeeps(acts, accept);
    RunShape(acts, accept);
    var s := Run(acts, accept);
    NoneAfter(s.msgs, s.answered);
    HoldsLast(s.msgs, accept);
    LastFollows(s.slot, Accepted(s.msgs, s.answered, accept));
  }

  lemma LastFollows(s: Slot, a: seq<Window>)
    requires Follows(s, a, [])
    ensures s.cur == if a == [] then None else Some(Last(a))
  {
    var n: nat :| Tail(n, s, a, []);
    var kept := a[|a| - n..];
    assert kept + [] == kept;
    if s.cur.Some? { assert Last(s.history + [s.cur.value]) == s.cur.value; }
  }

  // ---- One slot, whatever is asked for -------------------------------------------------

  predicate AllDistinct(ws: seq<Window>) { forall i, j :: 0 <= i < j < |ws| ==> ws[i] != ws[j] }

  /** What every slot looks like: at most nine windows, none twice. */
  predicate Tidy(s: Slot) { (s.cur.None? ==> s.history == []) && |Windows(s)| <= 9 && AllDistinct(Windows(s)) }

  lemma {:induction false} WithoutDistinct(s: seq<Window>, w: Window)
    requires AllDistinct(s)
    ensures AllDistinct(Without(s, w)) && w !in Without(s, w) && |Without(s, w)| <= |s|
    ensures w in s ==> |Without(s, w)| < |s|
  {
    if s != [] {
      WithoutDistinct(Pop(s), w);
      assert Last(s) !in Pop(s);
      if Last(s) != w { WithoutFrom(Pop(s), w, Last(s)); }
    }
  }

  lemma LastApart(s: seq<Window>, w: Window)
    requires AllDistinct(s + [w])
    ensures w !in s && AllDistinct(s) && (s != [] ==> AllDistinct(Pop(s) + [Last(s)]))
  {
    var all := s + [w];
    assert all[|s|] == w && forall i :: 0 <= i < |s| ==> all[i] == s[i];
    if s != [] { PopLast(s); }
  }

  /** A slide takes the window out from wherever it is and puts it last; of more than nine
      windows the oldest goes. */
  lemma SlideLaw(s: Slot, w: Window)
    requires Tidy(s)
    ensures var r := Without(Windows(s), w);
            Windows(Slide(s, w)) == (if |r| > 8 then r[1..] else r) + [w] && Tidy(Slide(s, w))
  {
    hide Without;
    var r := Without(Windows(s), w);
    WithoutDistinct(Windows(s), w);
    if s.cur.Some? {
      var cur := s.cur.value;
      WithoutAppend(s.history, [cur], w);
      if cur == w {
        WithoutOnly(w);
        LastApart(s.history, w);
        WithoutAbsent(s.history, w);
        assert r == s.history;
      } else {
        WithoutAbsent([cur], w);
        assert r == Without(s.history, w) + [cur];
      }
    } else {
      WithoutAbsent([], w);
    }
    assert AllDistinct((if |r| > 8 then r[1..] else r) + [w]);
  }

  /** A refusal takes the refused window out; when it is the latest, nothing is left if the
      node has dropped the descriptor, and it stays if there is nothing to fall back to. */
  lemma RefuseLaw(s: Slot, w: Window, kept: bool)
    requires Tidy(s)
    ensures Tidy(Refuse(s, w, kept))
    ensures Windows(Refuse(s, w, kept))
            == if s.cur == Some(w) && !kept then []
               else if s.cur == Some(w) && s.history == [] then [w]
               else Without(Windows(s), w)
  {
    hide Without;
    WithoutDistinct(Windows(s), w);
    if s.cur.Some? {
      var cur := s.cur.value;
      WithoutAppend(s.history, [cur], w);
      if cur == w {
        WithoutOnly(w);
        LastApart(s.history, w);
        WithoutAbsent(s.history, w);
        if s.history != [] { PopLast(s.history); }
      } else {
        WithoutAbsent([cur], w);
      }
    } else {
      WithoutAbsent([], w);
    }
  }

  // ---- Without room, some verdict loses ------------------------------------------------

  /** The window that the first send without room since the last removal pushes out. */
  function Victim(acts: seq<Act>): Window
    requires !Roomy(acts)
  {
    if Roomy(Pop(acts)) then var asks := Asks(Sent(Pop(acts))); asks[|asks| - HISTORY - 1] else Victim(Pop(acts))
  }

  /** The node accepts this window and no other. */
  ghost predicate OnlyAccepts(accept: Verdict, msgs: seq<Msg>, v: Window) {
    forall i: nat :: i < |msgs| ==> (accept(i) <==> msgs[i] == Ask(v))
  }

  lemma {:induction false} HoldsOnly(msgs: seq<Msg>, accept: Verdict, v: Window)
    requires OnlyAccepts(accept, msgs, v) && v in Asks(msgs)
    ensures NodeHolds(msgs, accept) == Some(v)
  {
    if Last(msgs) != Ask(v) { HoldsOnly(Pop(msgs), accept, v); }
  }

  /** Windows asked for and answered since the last removal. */
  function Done(msgs: seq<Msg>, n: nat): seq<Window> {
    if msgs == [] || Last(msgs).Remove? then []
    else Done(Pop(msgs), n) + if |msgs| - 1 < n then [Last(msgs).window] else []
  }

  lemma {:induction false} DoneFirst(msgs: seq<Msg>, n: nat)
    ensures Asks(msgs) == Done(msgs, n) + Unanswered(msgs, n)
  {
    if msgs != [] && !Last(msgs).Remove? {
      var m, w := Pop(msgs), Last(msgs).window;
      DoneFirst(m, n);
      if |msgs| - 1 < n {
        NoneAfter(m, n);
      } else {
        Assoc(Done(m, n), Unanswered(m, n), [w]);
      }
    }
  }

  lemma {:induction false} AcceptedOnly(msgs: seq<Msg>, n: nat, accept: Verdict, v: Window)
    requires OnlyAccepts(accept, msgs, v) && Distinct(msgs)
    ensures Accepted(msgs, n, accept) == if v in Done(msgs, n) then [v] else []
  {
    if msgs != [] && !Last(msgs).Remove? {
      var m := Pop(msgs);
      assert m + [Last(msgs)] == msgs;
      AskDistinct(m, Last(msgs).window);
      AcceptedOnly(m, n, accept, v);
      if Last(msgs) == Ask(v) { NotDone(m, n, v); }
    }
  }

  lemma {:induction false} NotDone(msgs: seq<Msg>, n: nat, w: Window)
    requires Ask(w) !in msgs
    ensures w !in Done(msgs, n) && w !in Asks(msgs)
  {
    if msgs != [] {
      NotDone(Pop(msgs), n, w);
      assert Last(msgs) in msgs;
    }
  }

  lemma AskedFor(msgs: seq<Msg>, w: Window)
    requires w in Asks(msgs)
    ensures Ask(w) in msgs
  {
    if Ask(w) !in msgs { NotDone(msgs, 0, w); }
  }

  lemma {:induction false} AsksDistinct(msgs: seq<Msg>)
    requires Distinct(msgs)
    ensures AllDistinct(Asks(msgs))
  {
    if msgs != [] && !Last(msgs).Remove? {
      var m := Pop(msgs);
      assert m + [Last(msgs)] == msgs;
      AskDistinct(m, Last(msgs).window);
      AsksDistinct(m);
      NotDone(m, 0, Last(msgs).window);
    }
  }

  /** As long as there was room, at most eight windows are unanswered, or nine are all. */
  lemma {:induction false} RoomyBound(acts: seq<Act>)
    requires Roomy(acts)
    ensures |Unanswered(Sent(acts), Answered(acts))| <= HISTORY || |Asks(Sent(acts))| <= HISTORY + 1
  {
    hide Unanswered, Asks, Accepted, Run;
    if acts == [] {
      NoneAfter([], 0);
    } else {
      var msgs, n := Sent(Pop(acts)), Answered(Pop(acts));
      RunShape(Pop(acts), i => true);
      match Last(acts)
      case Send(Remove) => AfterRemove(msgs, n);
      case Send(Ask(w)) =>
        RoomyBound(Pop(acts));
        AskAdds(msgs, w, n, i => true);
      case Answer =>
        RoomyBound(Pop(acts));
        assert msgs + [] == msgs;
        AnswerShrinks(msgs, n);
    }
  }

  lemma AnswerShrinks(msgs: seq<Msg>, n: nat)
    ensures n < |msgs| ==> |Unanswered(msgs, n + 1)| <= |Unanswered(msgs, n)|
  {
    hide Unanswered, Accepted;
    if n < |msgs| { AnswerMoves(msgs, n, i => true); }
  }

  lemma AfterRemove(msgs: seq<Msg>, n: nat)
    ensures Unanswered(msgs + [Remove], n) == [] && Asks(msgs + [Remove]) == []
  {
  }

  /** When there is no room for the first time and the node accepts just the ninth window from
      the end, the mirror holds the last nine. */
  lemma LastNine(s: Slot, msgs: seq<Msg>, n: nat, accept: Verdict)
    requires Distinct(msgs) && Follows(s, Accepted(msgs, n, accept), Unanswered(msgs, n))
    requires !HasRoom(msgs, n) && (|Unanswered(msgs, n)| == HISTORY || |Asks(msgs)| == HISTORY + 1)
    requires OnlyAccepts(accept, msgs, Asks(msgs)[|Asks(msgs)| - HISTORY - 1])
    ensures Windows(s) == Asks(msgs)[|Asks(msgs)| - HISTORY - 1..] && (s.cur.None? ==> s.history == [])
  {
    hide Accepted, Unanswered, Asks, Done, Distinct, Windows, OnlyAccepts, Follows;
    var asks := Asks(msgs);
    DoneFirst(msgs, n);
    AcceptedOnly(msgs, n, accept, asks[|asks| - HISTORY - 1]);
    if |Unanswered(msgs, n)| == HISTORY {
      LastAndMore(Done(msgs, n), Unanswered(msgs, n));
      OneAndMore(s, asks[|asks| - HISTORY - 1], Unanswered(msgs, n));
    } else {
      assert Done(msgs, n) == [];
      assert [] + asks == asks && asks[0..] == asks;
      OnlyMore(s, asks);
    }
  }

  lemma OneAndMore(s: Slot, v: Window, u: seq<Window>)
    requires Follows(s, [v], u)
    ensures Windows(s) == [v] + u && (s.cur.None? ==> s.history == [])
  {
    hide Windows;
    var k: nat :| Tail(k, s, [v], u);
    assert [v][1 - k..] == [v];
  }

  lemma OnlyMore(s: Slot, u: seq<Window>)
    requires Follows(s, [], u)
    ensures Windows(s) == u && (s.cur.None? ==> s.history == [])
  {
    hide Windows;
    assert [] + u == u;
  }

  lemma LastAndMore(done: seq<Window>, u: seq<Window>)
    requires done != []
    ensures var all := done + u;
            var k := |all| - |u| - 1;
            all[k] == Last(done) && all[k] in done && all[k..] == [all[k]] + u
  {
  }

  lemma {:induction false} WithoutFrom(s: seq<Window>, w: Window, v: Window)
    requires v !in s
    ensures v !in Without(s, w)
  {
    if s != [] {
      AbsentParts(s, v);
      WithoutFrom(Pop(s), w, v);
    }
  }

  lemma SlideAdds(s: Slot, w: Window, v: Window)
    requires v !in Windows(s) && v != w
    ensures v !in Windows(Slide(s, w))
  {
    if s.cur.Some? {
      assert Pop(Windows(s)) == s.history && Last(Windows(s)) == s.cur.value;
      AbsentParts(Windows(s), v);
      WithoutFrom(s.history, w, v);
    }
  }

  lemma RefuseRemoves(s: Slot, w: Window, kept: bool, v: Window)
    requires v !in Windows(s)
    ensures v !in Windows(Refuse(s, w, kept))
  {
    if s.cur.Some? {
      assert Pop(Windows(s)) == s.history && Last(Windows(s)) == s.cur.value;
      AbsentParts(Windows(s), v);
      WithoutFrom(s.history, w, v);
      if s.history != [] { PopLast(s.history); }
    }
  }

  /** A window that has left the mirror does not come back unless it is asked for again. */
  lemma StaysLost(s: State, a: Act, accept: Verdict, v: Window)
    requires v !in Windows(s.slot) && a != Send(Ask(v))
    ensures v !in Windows(Next(s, a, accept).slot)
  {
    hide Slide, Refuse, NodeHolds;
    match a
    case Send(Ask(w)) => SlideAdds(s.slot, w, v);
    case Send(Remove) =>
    case Answer =>
      if s.answered < |s.msgs| && s.msgs[s.answered].Ask? {
        RefuseRemoves(s.slot, s.msgs[s.answered].window, NodeHolds(s.msgs[..s.answered], accept).Some?, v);
      }
  }

  /** The first send without room pushes the one accepted window out. */
  lemma PushedOut(acts: seq<Act>, accept: Verdict)
    requires acts != [] && Roomy(Pop(acts)) && !Roomy(acts) && Distinct(Sent(acts))
    requires OnlyAccepts(accept, Sent(Pop(acts)), Victim(acts))
    ensures Victim(acts) in Asks(Sent(acts)) && Victim(acts) !in Windows(Run(acts, accept).slot)
  {
    hide Windows, Follows, Unanswered, Asks, Slide, Distinct, OnlyAccepts, Accepted;
    var s, w := Run(Pop(acts), accept), Last(acts).msg.window;
    SentBefore(acts);
    RunShape(Pop(acts), accept);
    RunKeeps(Pop(acts), accept);
    RoomyBound(Pop(acts));
    LastNine(s.slot, s.msgs, s.answered, accept);
    NotDone(s.msgs, 0, w);
    AskAdds(s.msgs, w, s.answered, accept);
    AsksDistinct(s.msgs);
    FirstLeaves(s.slot, Asks(s.msgs), w);
  }

  lemma FirstLeaves(s: Slot, asks: seq<Window>, w: Window)
    requires |asks| > HISTORY && Windows(s) == asks[|asks| - HISTORY - 1..] && (s.cur.None? ==> s.history == [])
    requires AllDistinct(asks) && w !in asks
    ensures asks[|asks| - HISTORY - 1] !in Windows(Slide(s, w))
  {
    hide Windows, Slide;
    var last := asks[|asks| - HISTORY - 1..];
    assert forall x :: x in last ==> x in asks;
    SlidePushes(s, w);
    assert last[0] !in last[1..];
  }

  lemma {:induction false} Loses(acts: seq<Act>, accept: Verdict)
    requires !Roomy(acts) && Distinct(Sent(acts)) && OnlyAccepts(accept, Sent(acts), Victim(acts))
    ensures Victim(acts) in Asks(Sent(acts)) && Victim(acts) !in Windows(Run(acts, accept).slot)
  {
    hide Windows, Asks, Next, Distinct, HasRoom;
    var before, a, v := Pop(acts), Last(acts), Victim(acts);
    SentBefore(acts);
    assert forall i :: 0 <= i < |Sent(before)| ==> Sent(acts)[i] == Sent(before)[i];
    if Roomy(before) {
      PushedOut(acts, accept);
    } else {
      Loses(before, accept);
      AskedFor(Sent(before), v);
      StaysLost(Run(before, accept), a, accept, v);
      if a.Send? {
        AskAdds(Sent(before), a.msg.window, 0, accept);
      } else {
        assert Sent(before) + [] == Sent(before);
      }
    }
  }

  /** For runs that ask for each window once and are answered in full: whatever the node's
      verdict, the mirror ends with the node's window, exactly when every window since the
      last removal was asked for with room. */
  lemma MatchesExactly(acts: seq<Act>)
    requires Distinct(Sent(acts)) && Answered(acts) == |Sent(acts)|
    ensures (forall accept: Verdict :: Run(acts, accept).slot.cur == NodeHolds(Sent(acts), accept)) <==> Roomy(acts)
  {
    hide Run, NodeHolds, Sent, Answered, Distinct, Asks, Roomy;
    if Roomy(acts) {
      forall accept: Verdict { MirrorMatchesNode(acts, accept); }
    } else {
      var msgs, v := Sent(acts), Victim(acts);
      var accept: Verdict := (i: nat) => i < |msgs| && msgs[i] == Ask(v);
      Loses(acts, accept);
      HoldsOnly(msgs, accept, v);
      assert Run(acts, accept).slot.cur != Some(v);
    }
  }

  // ---- Windows asked for again ---------------------------------------------------------

  /** Up to nine steps always have room. */
  lemma {:induction false} ShortIsRoomy(acts: seq<Act>)
    requires |acts| <= HISTORY + 1
    ensures Roomy(acts) && |Asks(Sent(acts))| <= |acts|
  {
    if acts != [] {
      ShortIsRoomy(Pop(acts));
      var msgs := Sent(Pop(acts));
      match Last(acts)
      case Answer => assert msgs + [] == msgs;
      case Send(m) => assert Pop(msgs + [m]) == msgs;
    }
  }

  lemma SixSteps(a: Act, b: Act, c: Act, d: Act, e: Act, f: Act, accept: Verdict)
    ensures Run([a, b, c, d, e, f], accept)
            == Next(Next(Next(Next(Next(Next(START, a, accept), b, accept), c, accept), d, accept), e, accept),
                    f, accept)
  {
    hide Next;
    assert Pop([a, b, c, d, e, f]) == [a, b, c, d, e] && Pop([a, b, c, d, e]) == [a, b, c, d];
    assert Pop([a, b, c, d]) == [a, b, c] && Pop([a, b, c]) == [a, b] && Pop([a, b]) == [a] && Pop([a]) == [];
    assert Run([a], accept) == Next(START, a, accept);
    assert Run([a, b], accept) == Next(Run([a], accept), b, accept);
    assert Run([a, b, c], accept) == Next(Run([a, b], accept), c, accept);
    assert Run([a, b, c, d], accept) == Next(Run([a, b, c], accept), d, accept);
  }

  /** Asking for a window again while the first ask is unanswered: its refusal hits the
      second, which the node accepts. */
  lemma AskedAgainEarly(w: Window, accept: Verdict)
    requires !accept(0) && accept(2)
    ensures var acts := [Send(Ask(w)), Send(Remove), Send(Ask(w)), Answer, Answer, Answer];
            && Roomy(acts) && Answered(acts) == |Sent(acts)|
            && Run(acts, accept).slot.cur == None && NodeHolds(Sent(acts), accept) == Some(w)
  {
    hide Run, Sent, Answered, Roomy;
    var acts := [Send(Ask(w)), Send(Remove), Send(Ask(w)), Answer, Answer, Answer];
    SixSteps(Send(Ask(w)), Send(Remove), Send(Ask(w)), Answer, Answer, Answer, accept);
    var s := State([Ask(w), Remove, Ask(w)], 0, Slot(Some(w), []));
    assert Next(Next(Next(START, Send(Ask(w)), accept), Send(Remove), accept), Send(Ask(w)), accept) == s;
    RunShape(acts, accept);
    ShortIsRoomy(acts);
  }

  /** Asking for the current window again, even with everything answered: when the node
      refuses the repetition it keeps the window, and the mirror goes back to the one before. */
  lemma AskedAgainLate(v: Window, w: Window, accept: Verdict)
    requires v != w && accept(0) && accept(1) && !accept(2)
    ensures var acts := [Send(Ask(v)), Answer, Send(Ask(w)), Answer, Send(Ask(w)), Answer];
            && Roomy(acts) && Answered(acts) == |Sent(acts)|
            && Run(acts, accept).slot.cur == Some(v) && NodeHolds(Sent(acts), accept) == Some(w)
  {
    hide Run, Sent, Answered, Roomy, Next, NodeHolds;
    var acts := [Send(Ask(v)), Answer, Send(Ask(w)), Answer, Send(Ask(w)), Answer];
    SixSteps(Send(Ask(v)), Answer, Send(Ask(w)), Answer, Send(Ask(w)), Answer, accept);
    TwoGranted(v, w, accept);
    RepeatDenied(v, w, accept);
    RunShape(acts, accept);
    ShortIsRoomy(acts);
  }

  lemma TwoGranted(v: Window, w: Window, accept: Verdict)
    requires v != w && accept(0) && accept(1)
    ensures Next(Next(Next(Next(START, Send(Ask(v)), accept), Answer, accept), Send(Ask(w)), accept), Answer, accept)
            == State([Ask(v), Ask(w)], 2, Slot(Some(w), [v]))
  {
    hide NodeHolds;
    var s := State([Ask(v)], 1, Slot(Some(v), []));
    assert Next(Next(START, Send(Ask(v)), accept), Answer, accept) == s;
    assert Next(s, Send(Ask(w)), accept) == State([Ask(v), Ask(w)], 1, Slot(Some(w), [v]));
  }

  lemma RepeatDenied(v: Window, w: Window, accept: Verdict)
    requires accept(1) && !accept(2)
    ensures var msgs := [Ask(v), Ask(w), Ask(w)]; var s := State([Ask(v), Ask(w)], 2, Slot(Some(w), [v]));
            && Next(Next(s, Send(Ask(w)), accept), Answer, accept) == State(msgs, 3, Slot(Some(v), []))
            && NodeHolds(msgs, accept) == Some(w)
  {
    var msgs := [Ask(v), Ask(w), Ask(w)];
    assert msgs[..2] == [Ask(v), Ask(w)] && Pop(msgs) == [Ask(v), Ask(w)];
    assert [Ask(v), Ask(w)] + [Ask(w)] == msgs;
  }

  // ---- How the mirror ends up with a refused window ------------------------------------

  /** The node accepts the first window and refuses all others of the list. */
  ghost predicate OnlyFirst(accept: Verdict, ws: seq<Window>) {
    accept(0) && forall i: nat :: 0 < i < |ws| ==> !accept(i)
  }

  /** The first window sent and answered, then k more sent before a refusal arrives, */
  function Pushed(ws: seq<Window>, k: nat, accept: Verdict): (s: State)
    requires k < |ws|
    ensures |s.msgs| == k + 1
  {
    if k == 0 then Next(Next(START, Send(Ask(ws[0])), accept), Answer, accept)
    else Next(Pushed(ws, k - 1, accept), Send(Ask(ws[k])), accept)
  }

  /** and j refusals, once all are sent. */
  function Drained(ws: seq<Window>, j: nat, accept: Verdict): State
    requires ws != []
  {
    if j == 0 then Pushed(ws, |ws| - 1, accept) else Next(Drained(ws, j - 1, accept), Answer, accept)
  }

  /** The history after windows 0 to k, of which those below j are refused. */
  function Left(ws: seq<Window>, k: nat, j: nat): seq<Window>
    requires j <= k < |ws|
  {
    ws[(if j < k - HISTORY then k - HISTORY else j)..k]
  }

  lemma {:induction false} PushedIs(ws: seq<Window>, k: nat, accept: Verdict)
    requires k < |ws| && AllDistinct(ws) && OnlyFirst(accept, ws)
    ensures Pushed(ws, k, accept).answered == 1
    ensures Pushed(ws, k, accept).slot == Slot(Some(ws[k]), Left(ws, k, 0))
  {
    if k == 0 {
      NothingRefused(ws, accept);
    } else {
      hide Slide, Left, Pushed;
      PushedIs(ws, k - 1, accept);
      SlideLeft(ws, k);
      PushedNext(ws, k, accept);
    }
  }

  lemma {:induction false} PushedMsgs(ws: seq<Window>, k: nat, accept: Verdict, i: nat)
    requires i <= k < |ws| && OnlyFirst(accept, ws)
    ensures Pushed(ws, k, accept).msgs[i] == Ask(ws[i])
  {
    if k == 0 {
      NothingRefused(ws, accept);
    } else {
      hide Slide, Pushed;
      PushedNext(ws, k, accept);
      if i < k { PushedMsgs(ws, k - 1, accept, i); }
    }
  }

  lemma PushedNext(ws: seq<Window>, k: nat, accept: Verdict)
    requires 0 < k < |ws|
    ensures var s := Pushed(ws, k - 1, accept);
            Pushed(ws, k, accept) == State(s.msgs + [Ask(ws[k])], s.answered, Slide(s.slot, ws[k]))
  {
  }

  lemma Denied(s: State, w: Window, accept: Verdict)
    requires s.answered < |s.msgs| && s.msgs[s.answered] == Ask(w) && !accept(s.answered)
    ensures Next(s, Answer, accept)
            == State(s.msgs, s.answered + 1, Refuse(s.slot, w, NodeHolds(s.msgs[..s.answered], accept).Some?))
  {
  }

  lemma SlideLeft(ws: seq<Window>, k: nat)
    requires 0 < k < |ws| && AllDistinct(ws)
    ensures Slide(Slot(Some(ws[k - 1]), Left(ws, k - 1, 0)), ws[k]) == Slot(Some(ws[k]), Left(ws, k, 0))
  {
    hide Left, Without, AllDistinct;
    LeftAbsent(ws, k);
    WithoutAbsent(Left(ws, k - 1, 0), ws[k]);
    LeftGrows(ws, k);
    assert ws[k - 1] != ws[k] by { assert AllDistinct(ws); Differ(ws, k - 1, k); }
  }

  lemma Differ(ws: seq<Window>, i: nat, j: nat)
    requires AllDistinct(ws) && i < j < |ws|
    ensures ws[i] != ws[j]
  {
  }

  lemma LeftAbsent(ws: seq<Window>, k: nat)
    requires 0 < k < |ws| && AllDistinct(ws)
    ensures ws[k] !in Left(ws, k - 1, 0)
  {
  }

  lemma LeftGrows(ws: seq<Window>, k: nat)
    requires 0 < k < |ws|
    ensures var h := Left(ws, k - 1, 0) + [ws[k - 1]]; Left(ws, k, 0) == if |h| > HISTORY then h[1..] else h
  {
    var from: nat := if 0 < k - 1 - HISTORY then k - 1 - HISTORY else 0;
    assert ws[from..k - 1] + [ws[k - 1]] == ws[from..k];
    assert ws[from..k][1..] == ws[from + 1..k];
  }

  lemma LeftStart(ws: seq<Window>, k: nat)
    requires HISTORY < k < |ws|
    ensures Left(ws, k, 0) == Left(ws, k, 1)
  {
  }

  lemma RefuseLeft(ws: seq<Window>, k: nat, j: nat)
    requires HISTORY < k < |ws| && 0 < j < k && AllDistinct(ws)
    ensures Refuse(Slot(Some(ws[k]), Left(ws, k, j)), ws[j], true) == Slot(Some(ws[k]), Left(ws, k, j + 1))
  {
    hide Without;
    var h := Left(ws, k, j);
    if j < k - HISTORY {
      WithoutAbsent(h, ws[j]);
    } else {
      var more := ws[j + 1..k];
      assert h == [ws[j]] + more;
      WithoutAppend([ws[j]], more, ws[j]);
      WithoutAbsent(more, ws[j]);
      WithoutOnly(ws[j]);
      assert [] + more == more;
    }
  }

  lemma WithoutOnly(w: Window)
    ensures Without([w], w) == []
  {
  }

  lemma NothingRefused(ws: seq<Window>, accept: Verdict)
    requires ws != [] && OnlyFirst(accept, ws)
    ensures Pushed(ws, 0, accept) == State([Ask(ws[0])], 1, Slot(Some(ws[0]), []))
  {
    assert [] + [Ask(ws[0])] == [Ask(ws[0])];
  }

  lemma {:induction false} FirstHeld(ws: seq<Window>, k: nat, accept: Verdict, n: nat)
    requires 1 <= n <= k + 1 <= |ws| && OnlyFirst(accept, ws)
    ensures NodeHolds(Pushed(ws, k, accept).msgs[..n], accept) == Some(ws[0])
  {
    PushedMsgs(ws, k, accept, n - 1);
    var m := Pushed(ws, k, accept).msgs[..n];
    if n > 1 {
      FirstHeld(ws, k, accept, n - 1);
      assert Pop(m) == Pushed(ws, k, accept).msgs[..n - 1];
    }
  }

  lemma {:induction false} DrainedIs(ws: seq<Window>, accept: Verdict, j: nat)
    requires HISTORY + 1 < |ws| && j < |ws| - 1 && AllDistinct(ws) && OnlyFirst(accept, ws)
    ensures var k := |ws| - 1;
            Drained(ws, j, accept) == State(Pushed(ws, k, accept).msgs, j + 1, Slot(Some(ws[k]), Left(ws, k, j + 1)))
  {
    hide Refuse, Left, Pushed, NodeHolds, Next;
    var k := |ws| - 1;
    if j == 0 {
      PushedIs(ws, k, accept);
      LeftStart(ws, k);
    } else {
      DrainedIs(ws, accept, j - 1);
      PushedMsgs(ws, k, accept, j);
      FirstHeld(ws, k, accept, j);
      RefuseLeft(ws, k, j);
      Denied(Drained(ws, j - 1, accept), ws[j], accept);
      assert Drained(ws, j, accept) == Next(Drained(ws, j - 1, accept), Answer, accept);
    }
  }

  /** Nine or more unanswered windows, whatever they are, all refused after one that was
      accepted: the accepted window has left the history by then, and the mirror is left with
      a window the node refused. */
  lemma PastTheBound(ws: seq<Window>, accept: Verdict)
    requires 9 < |ws| && AllDistinct(ws) && OnlyFirst(accept, ws)
    ensures var s := Drained(ws, |ws| - 1, accept);
            && s.answered == |s.msgs| == |ws| && NodeHolds(s.msgs, accept) == Some(ws[0])
            && s.slot.cur == Some(Last(ws)) && s.slot.cur != NodeHolds(s.msgs, accept)
  {
    hide Pushed, NodeHolds, Next;
    var k := |ws| - 1;
    DrainedIs(ws, accept, k - 1);
    PushedMsgs(ws, k, accept, k);
    FirstHeld(ws, k, accept, k);
    FirstHeld(ws, k, accept, k + 1);
    assert Pushed(ws, k, accept).msgs[..k + 1] == Pushed(ws, k, accept).msgs;
    assert Left(ws, k, k) == [];
    Denied(Drained(ws, k - 1, accept), ws[k], accept);
  }
}
