/** What the withholding relay guarantees over a whole run, for every body, every
    chunking of it and every behaviour of the libraries the relay consults. */
module SseRelayLaws {
  import opened Common
  import opened LineFraming
  import opened SseRelay

  /** Runs the relay as its driver does: call Next until it fails, write every result. */
  method RelayStream(u: Upstream, chunks: seq<Bytes>, failure: ReadError, eager: bool)
    returns (written: Bytes, sawTerminal: bool, err: ReadError)
    ensures err == failure
    ensures written == Delivered(u, Flatten(chunks), failure)
    ensures sawTerminal == (!Withheld(u, Flatten(chunks), failure) && Tally(u, AllLines(Flatten(chunks))).terminal)
  {
    hide Tally, Split, Tail, AllLines;
    var src := new Source(chunks, failure, eager);
    var reader := new LineReader(src);
    var relay := new SseRelay(u, reader);
    written, sawTerminal := [], false;
    while true
      invariant relay.Valid() && !relay.closed
      invariant relay.reader == reader && reader.src == src && relay.u == u
      invariant relay.text == Flatten(chunks) && src.failure == failure
      invariant fresh(relay) && fresh(reader) && fresh(src)
      invariant written == relay.written && sawTerminal == relay.reported
      decreases |reader.Unread()|
    {
      var out, terminal, e := relay.Next();
      written, sawTerminal := written + out, sawTerminal || terminal;
      if e.Some? {
        return written, sawTerminal, e.value;
      }
    }
  }

  // ---- When a turn leaves no trace ----

  /** The JSON payloads of some lines, in order. */
  function Payloads(lines: seq<Bytes>): seq<Bytes> {
    if lines == [] then []
    else
      var last := lines[|lines| - 1];
      Payloads(lines[..|lines| - 1]) + if KindOf(last).Json? then [KindOf(last).payload] else []
  }

  /** A line a retry on another credential would replace. */
  predicate Replaceable(u: Upstream, history: seq<Bytes>, line: Bytes) {
    match KindOf(line)
    case EventName => true
    case Blank => true
    case Other => false
    case Json(payload) =>
      var repaired := u.observe(history, payload);
      && u.classify(repaired) != Retryable
      && (|| Forwarded(u, history, line, payload).None?
          || (IsPreamble(u, repaired) && u.capOpen(|history|)))
  }

  predicate AllReplaceable(u: Upstream, lines: seq<Bytes>) {
    forall k :: 0 <= k < |lines| ==> Replaceable(u, Payloads(lines[..k]), lines[k])
  }

  /** A capacity, quota or rate refusal. */
  predicate Refused(u: Upstream, history: seq<Bytes>, line: Bytes) {
    KindOf(line).Json? && u.classify(u.observe(history, KindOf(line).payload)) == Retryable
  }

  /** Line k is a refusal and only replaceable lines came before it. */
  predicate RefusedAt(u: Upstream, lines: seq<Bytes>, k: nat) {
    k < |lines| && AllReplaceable(u, lines[..k]) && Refused(u, Payloads(lines[..k]), lines[k])
  }

  lemma ReplaceableSnoc(u: Upstream, lines: seq<Bytes>, line: Bytes)
    ensures AllReplaceable(u, lines + [line]) <==> AllReplaceable(u, lines) && Replaceable(u, Payloads(lines), line)
  {
    var all := lines + [line];
    assert forall k :: 0 <= k < |lines| ==> all[..k] == lines[..k] && all[k] == lines[k];
    assert all[..|lines|] == lines && all[|lines|] == line;
  }

  lemma RefusedSnoc(u: Upstream, lines: seq<Bytes>, line: Bytes)
    ensures (exists k: nat :: RefusedAt(u, lines + [line], k)) <==>
            || (exists k: nat :: RefusedAt(u, lines, k))
            || (AllReplaceable(u, lines) && Refused(u, Payloads(lines), line))
  {
    hide AllReplaceable, Refused, Payloads;
    var all, n := lines + [line], |lines|;
    forall k: nat | k < n
      ensures RefusedAt(u, all, k) <==> RefusedAt(u, lines, k)
    {
      assert all[..k] == lines[..k] && all[k] == lines[k];
    }
    assert all[..n] == lines && all[n] == line;
    if AllReplaceable(u, lines) && Refused(u, Payloads(lines), line) {
      assert RefusedAt(u, all, n);
    }
    if exists k: nat :: RefusedAt(u, lines, k) {
      var k: nat :| RefusedAt(u, lines, k);
      assert RefusedAt(u, all, k);
    }
  }

  lemma StepFlags(u: Upstream, t: Account, line: Bytes)
    ensures Step(u, t, line).history == t.history + if KindOf(line).Json? then [KindOf(line).payload] else []
    ensures Step(u, t, line).shed <==> t.shed || (t.quiet && Refused(u, t.history, line))
    ensures Step(u, t, line).quiet && !Step(u, t, line).shed <==>
            t.quiet && !t.shed && Replaceable(u, t.history, line)
  {
    hide KindOf, IsPreamble, IsTerminal, Forwarded;
  }

  /** The relay's two flags, read off the stream alone. */
  lemma {:induction false} FlagsMean(u: Upstream, lines: seq<Bytes>)
    ensures Tally(u, lines).history == Payloads(lines)
    ensures Tally(u, lines).shed <==> exists k: nat :: RefusedAt(u, lines, k)
    ensures Tally(u, lines).quiet && !Tally(u, lines).shed <==> AllReplaceable(u, lines)
  {
    if lines == [] {
    } else {
      var before, last := lines[..|lines| - 1], lines[|lines| - 1];
      assert lines == before + [last];
      FlagsMean(u, before);
      ReplaceableSnoc(u, before, last);
      RefusedSnoc(u, before, last);
      StepFlags(u, Tally(u, before), last);
    }
  }

  /** A turn is withheld for good exactly when upstream refuses it behind replaceable
      lines only, or parks it until the transport gives up with nothing else sent. */
  lemma WithheldMeans(u: Upstream, text: Bytes, failure: ReadError)
    ensures Withheld(u, text, failure) <==>
            || (exists k: nat :: RefusedAt(u, AllLines(text), k))
            || (failure.Stalled? && AllReplaceable(u, Split(text)))
  {
    FlagsMean(u, AllLines(text));
    FlagsMean(u, Split(text));
    LastLine(u, text);
    hide AllLines, Split, Tally, AllReplaceable;
  }

  /** Whatever follows a refusal that only replaceable lines preceded, the client gets
      nothing. */
  lemma ShedLeavesNoTrace(u: Upstream, text: Bytes, failure: ReadError,
                          opening: seq<Bytes>, refusal: Bytes, rest: seq<Bytes>)
    requires AllLines(text) == opening + [refusal] + rest
    requires AllReplaceable(u, opening) && Refused(u, Payloads(opening), refusal)
    ensures Withheld(u, text, failure) && Delivered(u, text, failure) == []
  {
    var lines, k := AllLines(text), |opening|;
    assert lines[..k] == opening && lines[k] == refusal;
    assert RefusedAt(u, lines, k);
    WithheldMeans(u, text, failure);
  }

  /** Line k is a payload that ends the response. */
  predicate TerminalAt(u: Upstream, lines: seq<Bytes>, k: nat) {
    && k < |lines|
    && KindOf(lines[k]).Json?
    && IsTerminal(u, u.observe(Payloads(lines[..k]), KindOf(lines[k]).payload))
  }

  lemma TerminalSnoc(u: Upstream, lines: seq<Bytes>, line: Bytes)
    ensures (exists k: nat :: TerminalAt(u, lines + [line], k)) <==>
            || (exists k: nat :: TerminalAt(u, lines, k))
            || (KindOf(line).Json? && IsTerminal(u, u.observe(Payloads(lines), KindOf(line).payload)))
  {
    hide KindOf, IsTerminal, Payloads;
    var more := lines + [line];
    assert more[..|lines|] == lines && more[|lines|] == line;
    forall k: nat | k < |lines|
      ensures TerminalAt(u, more, k) <==> TerminalAt(u, lines, k)
    {
      assert more[..k] == lines[..k] && more[k] == lines[k];
    }
    assert TerminalAt(u, more, |lines|) <==>
           KindOf(line).Json? && IsTerminal(u, u.observe(Payloads(lines), KindOf(line).payload));
  }

  lemma StepTerminal(u: Upstream, t: Account, line: Bytes)
    requires !Step(u, t, line).shed
    ensures !t.shed
    ensures Step(u, t, line).terminal ==
            (t.terminal || (KindOf(line).Json? && IsTerminal(u, u.observe(t.history, KindOf(line).payload))))
  {
    hide KindOf, IsTerminal, IsPreamble, Forwarded;
  }

  lemma {:induction false} TerminalMeans(u: Upstream, lines: seq<Bytes>)
    requires !Tally(u, lines).shed
    ensures Tally(u, lines).terminal <==> exists k: nat :: TerminalAt(u, lines, k)
  {
    if lines != [] {
      hide KindOf, IsTerminal, Step, TerminalAt, RefusedAt, AllReplaceable;
      var before, last := lines[..|lines| - 1], lines[|lines| - 1];
      assert lines == before + [last];
      FlagsMean(u, before);
      StepTerminal(u, Tally(u, before), last);
      TerminalMeans(u, before);
      TerminalSnoc(u, before, last);
    }
  }

  // ---- Withholding is invisible ----

  function PayloadOf(line: Bytes): seq<Bytes> {
    if KindOf(line).Json? then [KindOf(line).payload] else []
  }

  /** What a line becomes on its own; an event name is decided by the line after it. */
  function Piece(u: Upstream, history: seq<Bytes>, line: Bytes): Bytes {
    match KindOf(line)
    case EventName => []
    case Json(payload) =>
      (match Forwarded(u, history, line, payload)
       case None => []
       case Some(kept) => kept)
    case _ => line
  }

  /** An event name ahead of next survives unless the scrubber drops next. */
  function NameAhead(u: Upstream, history: seq<Bytes>, name: Bytes, next: Bytes): Bytes {
    if KindOf(name).EventName? && !(KindOf(next).Json? && Forwarded(u, history, next, KindOf(next).payload).None?)
    then name
    else []
  }

  /** The stream as a relay without any buffer would forward it: line by line, in
      upstream's order, with no notion of a withhold window. */
  function Transform(u: Upstream, history: seq<Bytes>, lines: seq<Bytes>): Bytes
    decreases |lines|
  {
    if lines == [] then []
    else
      var later := history + PayloadOf(lines[0]);
      Piece(u, history, lines[0])
      + (if |lines| > 1 then NameAhead(u, later, lines[0], lines[1]) else [])
      + Transform(u, later, lines[1..])
  }

  lemma PayloadsSnoc(lines: seq<Bytes>, line: Bytes)
    ensures Payloads(lines + [line]) == Payloads(lines) + PayloadOf(line)
  {
    hide KindOf;
    assert (lines + [line])[..|lines|] == lines;
  }

  lemma {:induction false} PayloadsFront(lines: seq<Bytes>)
    requires lines != []
    ensures Payloads(lines) == PayloadOf(lines[0]) + Payloads(lines[1..])
  {
    hide PayloadOf, Payloads;
    var n := |lines| - 1;
    var last := lines[n];
    assert lines == lines[..n] + [last];
    PayloadsSnoc(lines[..n], last);
    NoPayloads();
    if n == 0 {
      assert lines[..0] == [] && lines[1..] == [];
      assert [] + PayloadOf(last) == PayloadOf(last) == PayloadOf(last) + [];
    } else {
      PayloadsFront(lines[..n]);
      PayloadsSnoc(lines[1..n], last);
      assert lines[..n][1..] == lines[1..n] && lines[1..n] + [last] == lines[1..];
    }
  }

  lemma NoPayloads()
    ensures Payloads([]) == []
  {
  }

  lemma TransformFront(u: Upstream, history: seq<Bytes>, first: Bytes, rest: seq<Bytes>)
    ensures Transform(u, history, [first] + rest) ==
            Piece(u, history, first)
            + (if rest != [] then NameAhead(u, history + PayloadOf(first), first, rest[0]) else [])
            + Transform(u, history + PayloadOf(first), rest)
    ensures Transform(u, history, []) == [] && Payloads([]) == []
  {
    hide Piece, NameAhead, PayloadOf;
    assert ([first] + rest)[1..] == rest;
  }

  lemma {:induction false} TransformSnoc(u: Upstream, history: seq<Bytes>, lines: seq<Bytes>, line: Bytes)
    ensures Transform(u, history, lines + [line]) ==
            Transform(u, history, lines)
            + (if lines != [] then NameAhead(u, history + Payloads(lines), lines[|lines| - 1], line) else [])
            + Piece(u, history + Payloads(lines), line)
    decreases |lines|
  {
    hide Piece, NameAhead, PayloadOf, Transform, Payloads;
    if lines == [] {
      TransformFront(u, history, line, []);
      TransformFront(u, history + PayloadOf(line), line, []);
      assert history + [] == history && [] + [line] == [line] == [line] + [];
    } else {
      var first, rest := lines[0], lines[1..];
      var later := history + PayloadOf(first);
      TransformSnoc(u, later, rest, line);
      PayloadsFront(lines);
      assert later + Payloads(rest) == history + Payloads(lines);
      assert lines == [first] + rest && lines + [line] == [first] + (rest + [line]);
      TransformFront(u, history, first, rest);
      TransformFront(u, history, first, rest + [line]);
      if rest != [] {
        assert rest[|rest| - 1] == lines[|lines| - 1];
      } else {
        assert rest == [] && rest + [line] == [line] && later + Payloads(rest) == later;
        TransformFront(u, later, line, []);
      }
    }
  }

  lemma {:induction false} KeepsFirst(s: Bytes)
    requires s != [] && !IsSpace(s[0])
    ensures TrimRightSpace(s) != []
  {
    if IsSpace(s[|s| - 1]) {
      KeepsFirst(s[..|s| - 1]);
    }
  }

  lemma DataLineKind(line: Bytes)
    requires IsDataLine(line)
    ensures KindOf(line).Json? || KindOf(line).Other?
  {
    assert TrimRight(line)[0] == 100 && line[0] == 100;
    assert TrimLeftSpace(line) == line;
    KeepsFirst(line);
  }

  /** The event name the last line leaves undecided, if any. */
  function Dangling(lines: seq<Bytes>): Bytes {
    if lines != [] && KindOf(lines[|lines| - 1]).EventName? then lines[|lines| - 1] else []
  }

  /** Line k is an event name, and the line after it leaves it behind: another name
      replaces it, or a blank line goes ahead of it because the client has nothing yet. */
  predicate LeftBehind(u: Upstream, lines: seq<Bytes>, k: nat) {
    && k + 1 < |lines|
    && KindOf(lines[k]).EventName?
    && (|| KindOf(lines[k + 1]).EventName?
        || (KindOf(lines[k + 1]).Blank? && AllReplaceable(u, lines[..k + 1])))
  }

  /** No event name is left behind. */
  ghost predicate Orderly(u: Upstream, lines: seq<Bytes>) {
    forall k: nat :: !LeftBehind(u, lines, k)
  }

  lemma OrderlySnoc(u: Upstream, lines: seq<Bytes>, line: Bytes)
    ensures Orderly(u, lines + [line]) <==>
            && Orderly(u, lines)
            && (Dangling(lines) != [] ==>
                  && !KindOf(line).EventName?
                  && !(KindOf(line).Blank? && AllReplaceable(u, lines)))
  {
    hide AllReplaceable;
    NameShape(if lines == [] then [] else lines[|lines| - 1]);
    hide KindOf;
    var all := lines + [line];
    forall k: nat | k + 1 < |lines|
      ensures LeftBehind(u, all, k) <==> LeftBehind(u, lines, k)
    {
      assert all[..k + 1] == lines[..k + 1] && all[k] == lines[k] && all[k + 1] == lines[k + 1];
    }
    if lines != [] {
      var n := |lines| - 1;
      assert all[..n + 1] == lines && all[n] == lines[n] && all[n + 1] == line;
      assert !LeftBehind(u, lines, n);
      assert LeftBehind(u, all, n) <==>
             Dangling(lines) != [] && (KindOf(line).EventName? || (KindOf(line).Blank? && AllReplaceable(u, lines)));
    }
  }

  /** A name starts with an "e" and a blank line with white space. */
  lemma NameShape(line: Bytes)
    ensures KindOf(line).EventName? ==> line != [] && line[0] == EVENT_PREFIX[0]
    ensures KindOf(line).Blank? && line != [] ==> IsSpace(line[0])
  {
    if line != [] && !IsSpace(line[0]) {
      KeepsFirst(line);
    }
  }

  /** Two texts part for good at some position. */
  predicate Parted(a: Bytes, b: Bytes) {
    exists i :: 0 <= i < |a| && i < |b| && a[i] != b[i]
  }

  lemma PartedGrows(a: Bytes, b: Bytes, x: Bytes, y: Bytes)
    requires Parted(a, b)
    ensures Parted(a + x, b + y)
  {
    var i :| 0 <= i < |a| && i < |b| && a[i] != b[i];
    assert (a + x)[i] != (b + y)[i];
  }

  lemma PartsHere(a: Bytes, x: Bytes, y: Bytes)
    requires x != [] && y != [] && x[0] != y[0]
    ensures Parted(a + x, a + y)
  {
    assert (a + x)[|a|] != (a + y)[|a|];
  }

  /** How the relay's account t compares with the unbuffered stream w that leaves the
      name d open: they agree, or they have parted, or bytes are gone. */
  predicate Compares(t: Account, w: Bytes, d: Bytes, orderly: bool) {
    && (d != [] ==> t.held == d)
    && |t.out| + |t.held| <= |w| + |d|
    && (if orderly then t.out == w && t.held == d
        else Parted(t.out, w) || |t.out| + |t.held| < |w| + |d|)
  }

  /** What one line adds to the unbuffered stream. */
  function Added(u: Upstream, history: seq<Bytes>, d: Bytes, line: Bytes): Bytes {
    (if d != [] then NameAhead(u, history, d, line) else []) + Piece(u, history, line)
  }

  function OpenName(line: Bytes): Bytes {
    if KindOf(line).EventName? then line else []
  }

  lemma StepGrows(u: Upstream, t: Account, line: Bytes)
    ensures t.out <= Step(u, t, line).out
  {
    hide KindOf, Forwarded, IsPreamble, IsTerminal;
  }

  /** Bytes once gone stay gone. */
  lemma StepCounts(u: Upstream, t: Account, line: Bytes, d: Bytes)
    requires !Step(u, t, line).shed
    requires d != [] ==> KindOf(d).EventName? && t.held == d
    ensures OpenName(line) != [] ==> Step(u, t, line).held == OpenName(line)
    ensures |Step(u, t, line).out| + |Step(u, t, line).held| + |d| <=
            |t.out| + |t.held| + |Added(u, t.history, d, line)| + |OpenName(line)|
  {
    hide KindOf, Forwarded, IsPreamble, IsTerminal;
  }

  lemma StepAgrees(u: Upstream, t: Account, line: Bytes)
    requires !Step(u, t, line).shed
    requires t.held != [] ==> KindOf(t.held).EventName? && !KindOf(line).EventName? && !(KindOf(line).Blank? && t.quiet)
    ensures Step(u, t, line).out == t.out + Added(u, t.history, t.held, line)
    ensures Step(u, t, line).held == OpenName(line)
  {
    hide KindOf, Forwarded, IsPreamble, IsTerminal;
  }

  lemma StepLeavesBehind(u: Upstream, t: Account, line: Bytes)
    requires line != [] && t.held != [] && KindOf(t.held).EventName?
    requires KindOf(line).EventName? || (KindOf(line).Blank? && t.quiet)
    ensures KindOf(line).EventName? ==>
              |Step(u, t, line).out| + |Step(u, t, line).held| <
              |t.out| + |Added(u, t.history, t.held, line)| + |OpenName(line)|
    ensures KindOf(line).Blank? ==> Parted(Step(u, t, line).out, t.out + Added(u, t.history, t.held, line))
  {
    NameShape(line);
    NameShape(t.held);
    hide KindOf, Forwarded, IsPreamble, IsTerminal, Parted;
    if KindOf(line).Blank? {
      PartsHere(t.out, line, t.held + line);
    }
  }

  /** One line keeps the comparison, and ends the agreement exactly when it leaves a name
      behind. */
  lemma CompareStep(u: Upstream, t: Account, line: Bytes, w: Bytes, d: Bytes, orderly: bool)
    requires line != [] && !t.shed && !Step(u, t, line).shed
    requires d != [] ==> KindOf(d).EventName?
    requires Compares(t, w, d, orderly)
    ensures Compares(Step(u, t, line), w + Added(u, t.history, d, line), OpenName(line),
                     orderly && (d != [] ==> !KindOf(line).EventName? && !(KindOf(line).Blank? && t.quiet)))
  {
    hide KindOf, Step, Added, OpenName, Parted;
    var next, added := Step(u, t, line), Added(u, t.history, d, line);
    StepCounts(u, t, line, d);
    StepGrows(u, t, line);
    if !orderly {
      if Parted(t.out, w) {
        PartedGrows(t.out, w, next.out[|t.out|..], added);
        assert next.out == t.out + next.out[|t.out|..];
      }
    } else if d != [] && (KindOf(line).EventName? || (KindOf(line).Blank? && t.quiet)) {
      StepLeavesBehind(u, t, line);
    } else {
      StepAgrees(u, t, line);
    }
  }

  lemma {:induction false} ComparesAll(u: Upstream, lines: seq<Bytes>)
    requires !Tally(u, lines).shed
    requires forall k :: 0 <= k < |lines| ==> lines[k] != []
    ensures Compares(Tally(u, lines), Transform(u, [], lines), Dangling(lines), Orderly(u, lines))
  {
    hide Compares, Added, Step, Transform, Tally, AllReplaceable, Orderly;
    if lines == [] {
      NothingCompared(u);
    } else {
      var n := |lines| - 1;
      var before, last := lines[..n], lines[n];
      assert lines == before + [last];
      var t, d := Tally(u, before), Dangling(before);
      TallySnoc(u, before, last);
      FlagsMean(u, before);
      StepForward(u, t, last);
      ComparesAll(u, before);
      TransformSnoc(u, [], before, last);
      assert [] + Payloads(before) == Payloads(before);
      OrderlySnoc(u, before, last);
      NameShape(d);
      CompareStep(u, t, last, Transform(u, [], before), d, Orderly(u, before));
      AddedIs(u, Payloads(before), before, last, Transform(u, [], before));
    }
  }

  lemma NothingCompared(u: Upstream)
    ensures Compares(Tally(u, []), Transform(u, [], []), Dangling([]), Orderly(u, []))
  {
  }

  lemma AddedIs(u: Upstream, history: seq<Bytes>, before: seq<Bytes>, line: Bytes, w: Bytes)
    ensures w + Added(u, history, Dangling(before), line) ==
            w + (if before != [] then NameAhead(u, history, before[|before| - 1], line) else []) + Piece(u, history, line)
    ensures OpenName(line) == Dangling(before + [line])
  {
    NameShape(if before == [] then [] else before[|before| - 1]);
    hide KindOf, Piece;
  }

  /** What an unbuffered relay would forward of a whole body, a half event at its very end
      included. */
  function Unbuffered(u: Upstream, text: Bytes): Bytes {
    Transform(u, [], AllLines(text)) + Dangling(AllLines(text))
  }

  /** The body ends on an event name, and the client has read nothing by then. */
  predicate EndsOpen(u: Upstream, text: Bytes) {
    AllReplaceable(u, AllLines(text)) && Dangling(AllLines(text)) != []
  }

  /** Withholding is invisible exactly on orderly bodies: a run that is not withheld for
      good delivers the unbuffered stream, wherever the first byte was committed, if and
      only if no event name is left behind, neither by the line after it nor, while the
      client has nothing yet, by the end of the body. */
  lemma WithholdingInvisible(u: Upstream, text: Bytes, failure: ReadError)
    requires !Withheld(u, text, failure)
    ensures Delivered(u, text, failure) == Unbuffered(u, text) <==>
            Orderly(u, AllLines(text)) && !EndsOpen(u, text)
  {
    hide Tally, Transform, AllReplaceable, Orderly, Split, Tail, Parted;
    var lines := AllLines(text);
    LinesNotEmpty(text);
    FlagsMean(u, lines);
    ComparesAll(u, lines);
    var t, w, d := Tally(u, lines), Transform(u, [], lines), Dangling(lines);
    var x := if t.quiet then [] else t.held;
    if Parted(t.out, w) {
      PartedGrows(t.out, w, x, d);
      PartedDiffer(t.out + x, w + d);
    }
  }

  lemma PartedDiffer(a: Bytes, b: Bytes)
    requires Parted(a, b)
    ensures a != b
  {
  }

  lemma LinesNotEmpty(text: Bytes)
    ensures forall k :: 0 <= k < |AllLines(text)| ==> AllLines(text)[k] != []
  {
    SplitExact(text);
    hide Split, Tail;
    forall k | 0 <= k < |Split(text)|
      ensures Split(text)[k] != []
    {
      assert Split(text)[k] in Split(text);
    }
  }

  /** In particular on a body where each event name is directly followed by its data. */
  lemma NamedEventsAreOrderly(u: Upstream, lines: seq<Bytes>)
    requires forall k :: 0 <= k < |lines| - 1 && KindOf(lines[k]).EventName? ==> IsDataLine(lines[k + 1])
    ensures Orderly(u, lines)
  {
    forall k: nat | k + 1 < |lines| && KindOf(lines[k]).EventName?
      ensures !LeftBehind(u, lines, k)
    {
      DataLineKind(lines[k + 1]);
    }
  }

  lemma SampleKinds()
    ensures KindOf(EVENT_PREFIX + [NL]).EventName?
    ensures KindOf([NL]).Blank?
    ensures KindOf(DATA_PREFIX + [NL]).Other?
  {
    var name, blank, data := EVENT_PREFIX + [NL], [NL], DATA_PREFIX + [NL];
    assert name[..|name| - 1] == EVENT_PREFIX && blank[..0] == [] && data[..|data| - 1] == DATA_PREFIX;
    assert TrimRight(EVENT_PREFIX) == EVENT_PREFIX && TrimRight(DATA_PREFIX) == DATA_PREFIX;
    assert TrimLeftSpace(blank) == TrimLeftSpace(blank[1..]) == [];
    assert DATA_PREFIX[5..] == [] && DATA_PREFIX <= TrimRight(data);
    DataLineKind(data);
  }

  /** A body that is not orderly: before the commit, the blank line in "event:", "",
      "data:" is forwarded ahead of the event name. */
  lemma BlankOvertakesName(u: Upstream, failure: ReadError)
    ensures var name, blank, data := EVENT_PREFIX + [NL], [NL], DATA_PREFIX + [NL];
            var text := name + blank + data;
            && !Withheld(u, text, failure)
            && Unbuffered(u, text) == text
            && Delivered(u, text, failure) == blank + name + data != text
  {
    var name, blank, data := EVENT_PREFIX + [NL], [NL], DATA_PREFIX + [NL];
    SampleKinds();
    SampleLines();
    OvertakenBody(u, failure, name + blank + data, name, blank, data);
    hide *;
    assert (blank + name + data)[0] == NL != EVENT_PREFIX[0] == (name + blank + data)[0];
  }

  lemma OvertakenBody(u: Upstream, failure: ReadError, text: Bytes, name: Bytes, blank: Bytes, data: Bytes)
    requires KindOf(name).EventName? && KindOf(blank).Blank? && KindOf(data).Other?
    requires Split(text) == AllLines(text) == [name, blank, data]
    ensures !Withheld(u, text, failure)
    ensures Unbuffered(u, text) == name + blank + data && Delivered(u, text, failure) == blank + name + data
  {
    hide KindOf, Tally, Transform, Split, Tail, AllLines;
    OvertakenTally(u, name, blank, data);
    OvertakenTransform(u, name, blank, data);
    assert [name, blank, data][2] == data;
    assert name + blank + data + [] == name + blank + data && blank + name + data + [] == blank + name + data;
  }

  lemma SampleLines()
    ensures var name, blank, data := EVENT_PREFIX + [NL], [NL], DATA_PREFIX + [NL];
            Split(name + blank + data) == AllLines(name + blank + data) == [name, blank, data]
  {
    var name, blank, data := EVENT_PREFIX + [NL], [NL], DATA_PREFIX + [NL];
    var none: Bytes := [];
    hide Split, Tail;
    assert name[..|name| - 1] == EVENT_PREFIX && blank[..0] == [] && data[..|data| - 1] == DATA_PREFIX;
    FlattenFront(name, [blank, data]);
    FlattenFront(blank, [data]);
    FlattenFront(data, []);
    FlattenNothing<Byte>();
    assert [name, blank, data] == [name] + [blank, data] && [blank, data] == [blank] + [data] && [data] == [data] + [];
    assert Flatten([name, blank, data]) + none == name + blank + data;
    SplitUnique([name, blank, data], none);
    assert Split(name + blank + data) + [] == [name, blank, data];
  }

  lemma OvertakenTally(u: Upstream, name: Bytes, blank: Bytes, data: Bytes)
    requires KindOf(name).EventName? && KindOf(blank).Blank? && KindOf(data).Other?
    ensures var t := Tally(u, [name, blank, data]);
            t.out == blank + name + data && t.held == [] && !t.quiet && !t.shed
  {
    hide KindOf, Tally;
    assert [] + [name] == [name] && [name] + [blank] == [name, blank];
    assert [name, blank] + [data] == [name, blank, data];
    TallySnoc(u, [], name);
    TallySnoc(u, [name], blank);
    TallySnoc(u, [name, blank], data);
    NothingTallied(u);
  }

  lemma NothingTallied(u: Upstream)
    ensures Tally(u, []) == Account([], [], true, false, [], false)
  {
  }

  lemma OvertakenTransform(u: Upstream, name: Bytes, blank: Bytes, data: Bytes)
    requires KindOf(name).EventName? && KindOf(blank).Blank? && KindOf(data).Other?
    ensures Transform(u, [], [name, blank, data]) == name + blank + data
  {
    hide KindOf, Transform;
    assert [name, blank, data] == [name] + [blank, data];
    assert [blank, data] == [blank] + [data] && [data] == [data] + [];
    var none: seq<Bytes> := [];
    assert none + PayloadOf(name) == none && none + PayloadOf(blank) == none && none + PayloadOf(data) == none;
    TransformFront(u, [], name, [blank, data]);
    TransformFront(u, [], blank, [data]);
    TransformFront(u, [], data, []);
  }
}
