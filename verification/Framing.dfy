/** Newline framing over a buffered reader whose read can be cancelled at any wait. */
module Framing {
  import opened ScriptTypes

  const NL: Byte := 0x0a
  const CR: Byte := 0x0d

  // ---- The newline split of a byte stream ----------------------------------------------

  function FirstNl(s: Bytes): (k: nat)
    requires NL in s
    ensures k < |s| && s[k] == NL && NL !in s[..k]
  {
    if s[0] == NL then 0
    else
      assert s[1..] == s[1..];
      var k := 1 + FirstNl(s[1..]);
      assert s[..k] == [s[0]] + s[1..][..k - 1];
      k
  }

  /** The terminated lines of a stream, without their newlines. */
  function Lines(s: Bytes): seq<Bytes> {
    if NL !in s then [] else [s[..FirstNl(s)]] + Lines(s[FirstNl(s) + 1..])
  }

  /** What follows the last newline. */
  function Remainder(s: Bytes): Bytes {
    if NL !in s then s else Remainder(s[FirstNl(s) + 1..])
  }

  function Trim(line: Bytes): Bytes {
    if line != [] && Last(line) == CR then Pop(line) else line
  }

  function Trims(lines: seq<Bytes>): (r: seq<Bytes>)
    ensures |r| == |lines|
  {
    if lines == [] then [] else [Trim(lines[0])] + Trims(lines[1..])
  }

  lemma FirstNlUnique(a: Bytes, b: Bytes)
    requires NL !in a
    ensures NL in a + [NL] + b && FirstNl(a + [NL] + b) == |a|
  {
    var s := a + [NL] + b;
    assert s[|a|] == NL;
    var k := FirstNl(s);
    assert forall i :: 0 <= i < |a| ==> s[i] == a[i] && a[i] in a;
    assert forall i :: 0 <= i < k ==> s[i] in s[..k];
  }

  lemma LinesCons(a: Bytes, b: Bytes)
    requires NL !in a
    ensures Lines(a + [NL] + b) == [a] + Lines(b) && Remainder(a + [NL] + b) == Remainder(b)
  {
    FirstNlUnique(a, b);
    var s := a + [NL] + b;
    assert s[..|a|] == a && s[|a| + 1..] == b;
  }

  // ---- One read, as a function of the chunks that arrive -------------------------------

  function Flat(chunks: seq<Bytes>): Bytes {
    if chunks == [] then [] else chunks[0] + Flat(chunks[1..])
  }

  function Prepend(chunk: Bytes, more: seq<Bytes>): (r: seq<Bytes>)
    ensures Flat(r) == chunk + Flat(more)
  {
    if chunk == [] then more else [chunk] + more
  }

  datatype Outcome = Found(raw: Bytes, rest: seq<Bytes>) | Short(partial: Bytes) | Over(kept: Bytes, left: seq<Bytes>)

  function Absorb(buf: Bytes, chunks: seq<Bytes>, cap: nat): (r: Outcome)
    ensures r.Found? ==> |Flat(r.rest)| < |Flat(chunks)|
    decreases chunks
  {
    if chunks == [] then Short(buf)
    else if NL in chunks[0] then
      var k := FirstNl(chunks[0]);
      Found(buf + chunks[0][..k], Prepend(chunks[0][k + 1..], chunks[1..]))
    else if |buf| + |chunks[0]| > cap then Over(buf, chunks)
    else Absorb(buf + chunks[0], chunks[1..], cap)
  }

  lemma AbsorbTurn(buf: Bytes, chunks: seq<Bytes>, cap: nat)
    ensures chunks == [] ==> Absorb(buf, chunks, cap) == Short(buf)
    ensures chunks != [] ==>
              var c := chunks[0];
              if NL in c then
                Absorb(buf, chunks, cap) == Found(buf + c[..FirstNl(c)], Prepend(c[FirstNl(c) + 1..], chunks[1..]))
              else if |buf| + |c| > cap then Absorb(buf, chunks, cap) == Over(buf, chunks)
              else Absorb(buf, chunks, cap) == Absorb(buf + c, chunks[1..], cap)
  {
  }

  /** A found line is the bytes up to the next newline of the stream, and nothing else of
      the stream is gone; a read that ends early has kept every byte. */
  lemma {:induction false} AbsorbMeaning(buf: Bytes, chunks: seq<Bytes>, cap: nat)
    requires NL !in buf
    ensures var r, s := Absorb(buf, chunks, cap), buf + Flat(chunks);
            match r
            case Found(raw, rest) => NL !in raw && s == raw + [NL] + Flat(rest)
            case Short(p) => p == s && NL !in s
            case Over(kept, left) =>
              s == kept + Flat(left) && NL !in kept && left != [] && NL !in left[0] && |kept| + |left[0]| > cap
    decreases chunks
  {
    if chunks == [] {
      assert buf + [] == buf;
    } else if NL in chunks[0] {
      var c, k := chunks[0], FirstNl(chunks[0]);
      assert c == c[..k] + [NL] + c[k + 1..];
      assert buf + (c + Flat(chunks[1..])) == (buf + c[..k]) + [NL] + (c[k + 1..] + Flat(chunks[1..]));
    } else {
      Assoc(buf, chunks[0], Flat(chunks[1..]));
      if |buf| + |chunks[0]| <= cap { AbsorbMeaning(buf + chunks[0], chunks[1..], cap); }
    }
  }

  /** The read is refused exactly when some number of whole chunks, none of which has the
      newline, brings the line past the cap. */
  lemma {:induction false} RefusedIff(buf: Bytes, chunks: seq<Bytes>, cap: nat)
    ensures Absorb(buf, chunks, cap).Over? <==>
            exists n: nat :: 1 <= n <= |chunks| && NL !in Flat(chunks[..n]) && |buf| + |Flat(chunks[..n])| > cap
    decreases chunks
  {
    if chunks == [] {
    } else if NL in chunks[0] {
      forall n: nat | 1 <= n <= |chunks| ensures NL in Flat(chunks[..n]) { FlatCons(chunks, n); }
    } else if |buf| + |chunks[0]| > cap {
      FlatCons(chunks, 1);
      assert Flat(chunks[1..][..0]) == [];
      assert Flat(chunks[..1]) == chunks[0] + [];
      assert NL !in Flat(chunks[..1]) && |buf| + |Flat(chunks[..1])| > cap;
    } else {
      var tail := chunks[1..];
      RefusedIff(buf + chunks[0], tail, cap);
      if n: nat :| 1 <= n <= |tail| && NL !in Flat(tail[..n]) && |buf + chunks[0]| + |Flat(tail[..n])| > cap {
        FlatCons(chunks, n + 1);
        assert NL !in Flat(chunks[..n + 1]);
        assert |buf| + |Flat(chunks[..n + 1])| > cap;
      }
      if n: nat :| 1 <= n <= |chunks| && NL !in Flat(chunks[..n]) && |buf| + |Flat(chunks[..n])| > cap {
        FlatCons(chunks, n);
        assert Flat(tail[..0]) == [];
        assert NL !in Flat(tail[..n - 1]);
        assert |buf + chunks[0]| + |Flat(tail[..n - 1])| > cap;
      }
    }
  }

  lemma FlatCons(chunks: seq<Bytes>, n: nat)
    requires 1 <= n <= |chunks|
    ensures Flat(chunks[..n]) == chunks[0] + Flat(chunks[1..][..n - 1])
  {
    assert chunks[..n][1..] == chunks[1..][..n - 1];
  }

  /** A line that is refused has more than cap bytes before its newline: one of at most cap
      bytes never is. */
  lemma RefusedIsLong(buf: Bytes, chunks: seq<Bytes>, cap: nat)
    requires NL !in buf && Absorb(buf, chunks, cap).Over?
    ensures var s := buf + Flat(chunks); if NL in s then FirstNl(s) > cap else |s| > cap
  {
    AbsorbMeaning(buf, chunks, cap);
    var r, s := Absorb(buf, chunks, cap), buf + Flat(chunks);
    var known := r.kept + r.left[0];
    assert s == known + Flat(r.left[1..]);
    assert forall i :: 0 <= i < |known| ==> s[i] == known[i] && known[i] in known;
  }

  /** A line whose content is exactly the cap and which ends in CR and newline is refused when
      the newline is in a later chunk, and accepted when it is in the same one. */
  lemma CarriageReturnCountsTowardsCap(line: Bytes, cap: nat)
    requires |line| == cap && NL !in line
    ensures Absorb([], [line + [CR], [NL]], cap).Over?
    ensures Absorb([], [line + [CR] + [NL]], cap) == Found(line + [CR], []) && Trim(line + [CR]) == line
  {
    hide Absorb, FirstNl, Flat;
    var raw := line + [CR];
    var whole := raw + [NL];
    assert whole + [] == whole;
    FirstNlUnique(raw, []);
    assert whole[..|raw|] == raw && whole[|raw| + 1..] == [] && [] + raw == raw;
    var one: seq<Bytes> := [whole];
    assert one[1..] == [] && Pop(raw) == line;
    AbsorbTurn([], one, cap);
    AbsorbTurn([], [raw, [NL]], cap);
  }

  /** The line buffer holds at most the cap and one more chunk. */
  lemma {:induction false} BufferBounded(buf: Bytes, chunks: seq<Bytes>, cap: nat, most: nat)
    requires |buf| <= cap && forall i :: 0 <= i < |chunks| ==> |chunks[i]| <= most
    ensures match Absorb(buf, chunks, cap)
            case Found(raw, _) => |raw| <= cap + most
            case Short(p) => |p| <= cap
            case Over(kept, _) => |kept| <= cap
    decreases chunks
  {
    if chunks != [] && NL !in chunks[0] && |buf| + |chunks[0]| <= cap {
      BufferBounded(buf + chunks[0], chunks[1..], cap, most);
    }
  }

  // ---- A whole connection --------------------------------------------------------------

  type Utf8 = Bytes -> bool
  datatype End = Closed | TooLong | BadUtf8

  /** Read lines until the stream ends or a line is refused. */
  function Session(buf: Bytes, chunks: seq<Bytes>, cap: nat, utf8: Utf8): (seq<Bytes>, End)
    decreases |Flat(chunks)|
  {
    match Absorb(buf, chunks, cap)
    case Short(_) => ([], Closed)
    case Over(_, _) => ([], TooLong)
    case Found(raw, rest) =>
      if !utf8(Trim(raw)) then ([], BadUtf8)
      else var (lines, end) := Session([], rest, cap, utf8); ([Trim(raw)] + lines, end)
  }

  function After(lines: seq<Bytes>, s: (seq<Bytes>, End)): (seq<Bytes>, End) { (lines + s.0, s.1) }

  ghost predicate Acceptable(s: Bytes, cap: nat, utf8: Utf8) {
    && (forall i :: 0 <= i < |Lines(s)| ==> |Lines(s)[i]| <= cap && utf8(Trim(Lines(s)[i])))
    && |Remainder(s)| <= cap
  }

  /** However the stream is chunked, the lines are the newline split with one trailing CR
      removed: a prefix of it when a line is refused, all of it when the stream ends; and a
      stream whose lines are all valid and within the cap is read to its end. */
  lemma {:induction false} SessionSplits(buf: Bytes, chunks: seq<Bytes>, cap: nat, utf8: Utf8)
    requires NL !in buf
    ensures var (lines, end) := Session(buf, chunks, cap, utf8);
            var s := buf + Flat(chunks);
            && lines <= Trims(Lines(s))
            && (end == Closed ==> lines == Trims(Lines(s)))
            && (Acceptable(s, cap, utf8) ==> end == Closed)
    decreases |Flat(chunks)|
  {
    hide Absorb, Lines, Remainder, Trims, Flat;
    AbsorbMeaning(buf, chunks, cap);
    var s := buf + Flat(chunks);
    match Absorb(buf, chunks, cap)
    case Short(_) => NoLines(s);
    case Over(_, _) =>
      RefusedIsLong(buf, chunks, cap);
      LongIsUnacceptable(s, cap, utf8);
    case Found(raw, rest) =>
      var more := Flat(rest);
      SessionSplits([], rest, cap, utf8);
      assert [] + more == more;
      LinesCons(raw, more);
      TrimsCons(raw, Lines(more));
      if Acceptable(s, cap, utf8) { AcceptableTail(raw, more, cap, utf8); }
  }

  lemma NoLines(s: Bytes)
    requires NL !in s
    ensures Trims(Lines(s)) == []
  {
  }

  lemma LongIsUnacceptable(s: Bytes, cap: nat, utf8: Utf8)
    requires if NL in s then FirstNl(s) > cap else |s| > cap
    ensures !Acceptable(s, cap, utf8)
  {
    if NL in s { assert Lines(s)[0] == s[..FirstNl(s)]; }
  }

  lemma AcceptableTail(raw: Bytes, more: Bytes, cap: nat, utf8: Utf8)
    requires NL !in raw && Acceptable(raw + [NL] + more, cap, utf8)
    ensures utf8(Trim(raw)) && Acceptable(more, cap, utf8)
  {
    hide Lines, Remainder, Trim;
    LinesCons(raw, more);
    var all := Lines(raw + [NL] + more);
    assert all[0] == raw;
    forall i | 0 <= i < |Lines(more)| ensures |Lines(more)[i]| <= cap && utf8(Trim(Lines(more)[i])) {
      assert all[i + 1] == Lines(more)[i];
    }
  }

  lemma TrimsCons(a: Bytes, more: seq<Bytes>)
    ensures Trims([a] + more) == [Trim(a)] + Trims(more)
  {
    assert ([a] + more)[1..] == more;
  }

  /** Lines as a client sends them, each with a carriage return or without. */
  function Joined(lines: seq<Bytes>, cr: bool): Bytes {
    if lines == [] then [] else lines[0] + (if cr then [0x0d, 0x0a] else [0x0a]) + Joined(lines[1..], cr)
  }

  predicate Sendable(line: Bytes, cr: bool, cap: nat, utf8: Utf8) {
    && 0x0a !in line && utf8(line) && |line| + (if cr then 1 else 0) <= cap
    && (!cr && line != [] ==> line[|line| - 1] != 0x0d)
  }

  lemma SentTrims(line: Bytes, cr: bool)
    requires !cr && line != [] ==> line[|line| - 1] != 0x0d
    ensures Trim(if cr then line + [0x0d] else line) == line
  {
    if cr { assert Pop(line + [CR]) == line; }
  }

  lemma {:induction false} JoinedIsAcceptable(lines: seq<Bytes>, cr: bool, cap: nat, utf8: Utf8)
    requires forall i :: 0 <= i < |lines| ==> Sendable(lines[i], cr, cap, utf8)
    ensures var s := Joined(lines, cr);
            Trims(Lines(s)) == lines && Acceptable(s, cap, utf8)
  {
    hide Trim, Lines, Remainder, Trims;
    if lines == [] {
      Empty(cap, utf8);
    } else {
      var raw := if cr then lines[0] + [CR] else lines[0];
      var more := Joined(lines[1..], cr);
      assert Sendable(lines[0], cr, cap, utf8);
      JoinedIsAcceptable(lines[1..], cr, cap, utf8);
      SentTrims(lines[0], cr);
      assert Joined(lines, cr) == raw + [NL] + more;
      LinesCons(raw, more);
      TrimsCons(raw, Lines(more));
      assert [lines[0]] + lines[1..] == lines;
      forall i | 0 <= i < |Lines(more)| + 1
        ensures var l := ([raw] + Lines(more))[i]; |l| <= cap && utf8(Trim(l))
      {
        if i > 0 { assert ([raw] + Lines(more))[i] == Lines(more)[i - 1]; }
      }
    }
  }

  lemma Empty(cap: nat, utf8: Utf8)
    ensures Trims(Lines([])) == [] && Acceptable([], cap, utf8)
  {
  }

  /** What a client sends arrives: every list of valid lines within the cap, ended by newlines
      with or without a carriage return, is read back as it was, however it is chunked. */
  lemma SentLinesArrive(lines: seq<Bytes>, cr: bool, chunks: seq<Bytes>, cap: nat, utf8: Utf8)
    requires forall i :: 0 <= i < |lines| ==> Sendable(lines[i], cr, cap, utf8)
    requires Flat(chunks) == Joined(lines, cr)
    ensures Session([], chunks, cap, utf8) == (lines, Closed)
  {
    hide Session, Lines, Remainder, Trims, Joined, Flat;
    JoinedIsAcceptable(lines, cr, cap, utf8);
    SessionSplits([], chunks, cap, utf8);
    assert [] + Flat(chunks) == Flat(chunks);
  }

  // ---- The reader and the connection loop ----------------------------------------------

  type Chunk = c: Bytes | c != [] witness [0]

  datatype Gathered = Newline | Eof | Overlong | Dropped
  datatype Read = Line(text: Bytes) | Failed(end: End) | Cancelled

  class Connection {
    var current: Bytes          // what the buffered reader holds
    var arriving: seq<Chunk>    // what its next reads will give; then end of stream
    var buf: Bytes              // the caller's line buffer

    constructor (arriving: seq<Chunk>)
      ensures Chunks() == arriving && buf == []
    {
      current, this.arriving, buf := [], arriving, [];
    }

    function Chunks(): seq<Bytes>
      reads this`current, this`arriving
    {
      Prepend(current, arriving)
    }

    method FillBuf() returns (chunk: Bytes)
      modifies `current, `arriving
      ensures Chunks() == old(Chunks()) && chunk == current
      ensures chunk == [] <==> Chunks() == []
      ensures chunk != [] ==> Chunks() == [chunk] + arriving
    {
      if current == [] && arriving != [] {
        current, arriving := arriving[0], arriving[1..];
      }
      chunk := current;
    }

    /** Add what is buffered to the line until a newline is found. The wait in each turn may be
        the one at which the read is dropped: `waits` says how many turns it gets. */
    method Gather(cap: nat, waits: nat) returns (r: Gathered)
      modifies this
      ensures r == Dropped ==> Absorb(buf, Chunks(), cap) == old(Absorb(buf, Chunks(), cap))
      ensures r == Dropped && old(|buf|) <= cap ==> |buf| <= cap
      ensures r == Eof ==> old(Absorb(buf, Chunks(), cap)) == Short(buf)
      ensures r == Overlong ==> old(Absorb(buf, Chunks(), cap)) == Over(buf, Chunks())
      ensures r == Newline ==> old(Absorb(buf, Chunks(), cap)) == Found(buf, Chunks())
      ensures waits > old(|Chunks()|) ==> r != Dropped
    {
      hide Flat, FirstNl, Absorb;
      var left: nat := waits;
      while true
        invariant old(|buf|) <= cap ==> |buf| <= cap
        invariant Absorb(buf, Chunks(), cap) == old(Absorb(buf, Chunks(), cap))
        invariant waits > old(|Chunks()|) ==> left > |Chunks()|
        decreases left
      {
        if left == 0 { return Dropped; }
        left := left - 1;
        var chunk := FillBuf();
        AbsorbTurn(buf, Chunks(), cap);
        if chunk == [] { return Eof; }
        assert Chunks()[1..] == arriving;
        if NL in chunk {
          var pos := FirstNl(chunk);
          buf := buf + chunk[..pos];
          current := chunk[pos + 1..];
          return Newline;
        }
        if |buf| + |chunk| > cap { return Overlong; }
        buf := buf + chunk;
        current := [];
        if |buf| > cap { return Overlong; }
      }
    }

    /** Read one line. Neither a dropped read nor a finished one loses a byte: dropping
        changes nothing about what the next read will return. */
    method ReadLineBounded(cap: nat, utf8: Utf8, waits: nat) returns (r: Read)
      modifies this
      ensures r.Cancelled? && old(|buf|) <= cap ==> |buf| <= cap
      ensures r.Cancelled? ==> Absorb(buf, Chunks(), cap) == old(Absorb(buf, Chunks(), cap))
      ensures !r.Cancelled? ==>
                match old(Absorb(buf, Chunks(), cap))
                case Short(p) => r == Failed(Closed) && buf == p
                case Over(kept, left) => r == Failed(TooLong) && buf == kept && Chunks() == left
                case Found(raw, rest) =>
                  && buf == Trim(raw) && Chunks() == rest
                  && r == if utf8(Trim(raw)) then Line(Trim(raw)) else Failed(BadUtf8)
      ensures waits > old(|Chunks()|) ==> !r.Cancelled?
    {
      hide Absorb;
      var g := Gather(cap, waits);
      if g == Dropped { return Cancelled; }
      if g == Eof { return Failed(Closed); }
      if g == Overlong { return Failed(TooLong); }
      if buf != [] && Last(buf) == CR { buf := Pop(buf); }
      if !utf8(buf) { return Failed(BadUtf8); }
      return Line(buf);
    }

    /** The connection's loop: the buffer is cleared after a line, and only then. The reads
        are dropped as `drops` says, the lines are the same for every such pattern. */
    method Serve(cap: nat, utf8: Utf8, drops: seq<nat>) returns (lines: seq<Bytes>, end: End)
      requires buf == []
      modifies this
      ensures (lines, end) == old(Session(buf, Chunks(), cap, utf8))
    {
      hide Absorb, Flat, Chunks, Trim;
      lines := [];
      var turn: nat := 0;
      ghost var whole := Session(buf, Chunks(), cap, utf8);
      assert [] + whole.0 == whole.0;
      while true
        invariant |buf| <= cap && turn <= |drops|
        invariant whole == After(lines, Session(buf, Chunks(), cap, utf8))
        decreases |drops| - turn, |Flat(Chunks())|
      {
        ghost var buf0, chunks0 := buf, Chunks();
        var waits := if turn < |drops| then drops[turn] else |Chunks()| + 1;
        var r := ReadLineBounded(cap, utf8, waits);
        match r
        case Failed(e) =>
          assert lines + [] == lines;
          return lines, e;
        case Line(text) =>
          lines := lines + [text];
          buf := [];
          assert Session(buf0, chunks0, cap, utf8) == After([text], Session(buf, Chunks(), cap, utf8));
          Assoc(lines[..|lines| - 1], [text], Session(buf, Chunks(), cap, utf8).0);
          assert lines[..|lines| - 1] + [text] == lines;
        case Cancelled =>
          turn := turn + 1;
      }
    }
  }
}
