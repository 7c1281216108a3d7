/** The withholding relay of the Codex backend's event stream: the state machine that
    decides which bytes may reach the client, and when. The line grammar is that of
    section 9.2.5 of the WHATWG HTML Standard. */
module SseRelay {
  import opened Common
  import opened LineFraming

  /** How the vendor-error classifier reads a payload. */
  datatype Class = Retryable | Fatal | Ordinary

  /** A line that is not blank: what the scrubber hands on when it keeps a line. */
  type VisibleLine = b: Bytes | !IsBlank(b) witness [58]

  /** The library functions the relay consults. observe sees every earlier payload of
      the stream, because the output accumulator is stateful; eventType is None for a
      payload that is not an object; capOpen(n) says whether the withhold cap is still
      open when the n-th payload is classified. */
  datatype Upstream = Upstream(
    classify: Bytes -> Class,
    demote: Bytes -> Option<Bytes>,
    scrub: Bytes -> Option<VisibleLine>,
    observe: (seq<Bytes>, Bytes) -> Bytes,
    eventType: Bytes -> Option<string>,
    capOpen: nat -> bool)

  const TERMINAL_EVENTS: set<string> := {
    "response.completed", "response.failed", "response.incomplete",
    "response.cancelled", "response.canceled"
  }

  const CONTENT_FREE_EVENTS: set<string> := {
    "response.created", "response.in_progress", "response.output_item.added",
    "response.content_part.added", "response.reasoning_summary_part.added", "keepalive",
    "codex.rate_limits", "codex.response.metadata", "responsesapi.websocket_timing"
  }

  predicate IsTerminal(u: Upstream, payload: Bytes) {
    u.eventType(payload).Some? && u.eventType(payload).value in TERMINAL_EVENTS
  }

  predicate IsPreamble(u: Upstream, payload: Bytes) {
    match u.eventType(payload)
    case None => false
    case Some(name) => name == "" || name in CONTENT_FREE_EVENTS
  }

  /** No payload is both withheld as an opener and reported as the end of the stream. */
  lemma PreambleNeverTerminal(u: Upstream, payload: Bytes)
    ensures !(IsPreamble(u, payload) && IsTerminal(u, payload))
  {
    if IsTerminal(u, payload) {
      var name := u.eventType(payload).value;
      assert |name| >= 15 && name[..9] == "response." && name[9] in "cfi";
      assert name[10] in "oan";
    }
  }

  datatype Kind = EventName | Json(payload: Bytes) | Blank | Other

  predicate IsDataLine(line: Bytes) {
    DATA_PREFIX <= TrimRight(line)
  }

  function KindOf(line: Bytes): Kind {
    var trim := TrimRight(line);
    if EVENT_PREFIX <= trim then EventName
    else if DATA_PREFIX <= trim && JsonPayload(trim) != [] then Json(JsonPayload(trim))
    else if IsBlank(line) then Blank
    else Other
  }

  lemma KindBlank(line: Bytes)
    ensures KindOf(line).Blank? ==> IsBlank(line)
    ensures KindOf(line).Other? ==> !IsBlank(line)
    ensures IsBlank([])
  {
  }

  /** The object carried by a trimmed data line, or [] when it carries none. */
  function JsonPayload(trim: Bytes): Bytes
    requires DATA_PREFIX <= trim
  {
    var payload := TrimSpace(trim[5..]);
    if payload != [] && payload[0] == OPEN_BRACE then payload else []
  }

  /** A data line around a replacement payload, keeping the line's own terminator. */
  function Rebuild(payload: Bytes, line: Bytes): Bytes {
    DATA_LEAD + payload + line[|TrimRight(line)|..]
  }

  /** The data line as the accumulator repaired it. */
  function RepairedLine(u: Upstream, history: seq<Bytes>, line: Bytes, payload: Bytes): Bytes {
    var repaired := u.observe(history, payload);
    if repaired != payload then Rebuild(repaired, line) else line
  }

  /** What an unbuffered relay makes of one data line; None when the scrubber drops it.
      A refusal it can no longer withhold has its capacity code demoted. */
  function Forwarded(u: Upstream, history: seq<Bytes>, line: Bytes, payload: Bytes): Option<VisibleLine> {
    var repaired := u.observe(history, payload);
    var whole := RepairedLine(u, history, line, payload);
    var demoted := if u.classify(repaired) == Retryable then u.demote(repaired) else None;
    u.scrub(if demoted.Some? then Rebuild(demoted.value, whole) else whole)
  }

  // ---- What a stream is owed, line by line ----

  /** The account of a stream so far: the output owed to the client, an event name
      waiting for its data, whether only replaceable material was seen, whether
      upstream refused the turn while that was so, the payloads, and whether one of
      them ended the response. */
  datatype Account = Account(out: Bytes, held: Bytes, quiet: bool, shed: bool, history: seq<Bytes>, terminal: bool)

  function Step(u: Upstream, t: Account, line: Bytes): Account {
    match KindOf(line)
    case EventName => t.(held := line)
    case Json(payload) =>
      var repaired := u.observe(t.history, payload);
      var next := t.(history := t.history + [payload]);
      if t.quiet && u.classify(repaired) == Retryable then next.(shed := true)
      else
        var ended := t.terminal || IsTerminal(u, repaired);
        (match Forwarded(u, t.history, line, payload)
         case None => next.(held := [], terminal := ended)
         case Some(kept) => next.(
           out := t.out + t.held + kept, held := [], terminal := ended,
           quiet := t.quiet && IsPreamble(u, repaired) && u.capOpen(|t.history|)))
    case Blank => if t.quiet then t.(out := t.out + line) else t.(out := t.out + t.held + line, held := [])
    case Other => t.(out := t.out + t.held + line, held := [], quiet := false)
  }

  function Tally(u: Upstream, lines: seq<Bytes>): Account {
    if lines == [] then Account([], [], true, false, [], false)
    else Step(u, Tally(u, lines[..|lines| - 1]), lines[|lines| - 1])
  }

  lemma TallySnoc(u: Upstream, lines: seq<Bytes>, line: Bytes)
    ensures Tally(u, lines + [line]) == Step(u, Tally(u, lines), line)
  {
    assert (lines + [line])[..|lines|] == lines;
  }

  /** The lines of a body, its unterminated tail included. */
  function AllLines(text: Bytes): seq<Bytes> {
    Split(text) + if Tail(text) == [] then [] else [Tail(text)]
  }

  /** Whether the turn is withheld for good: upstream refused it, or parked it until the
      transport gave up, while nothing but replaceable material had been seen. */
  predicate Withheld(u: Upstream, text: Bytes, failure: ReadError) {
    || Tally(u, AllLines(text)).shed
    || (failure.Stalled? && Tally(u, Split(text)).quiet && !Tally(u, Split(text)).shed)
  }

  /** Everything the client receives over a whole run. A client that has read
      nothing so far does not get a half event at the very end. */
  function Delivered(u: Upstream, text: Bytes, failure: ReadError): Bytes {
    var t := Tally(u, AllLines(text));
    if Withheld(u, text, failure) then [] else t.out + if t.quiet then [] else t.held
  }

  class SseRelay {
    const u: Upstream
    const reader: LineReader
    var held: Bytes
    var preamble: Bytes
    var history: seq<Bytes>
    var shedding: bool
    var sentAny: bool

    ghost const text: Bytes       // the whole upstream body
    ghost var seen: seq<Bytes>    // lines read so far
    ghost var written: Bytes      // bytes handed to the client so far
    ghost var reported: bool      // a call has returned terminal
    ghost var drained: bool       // the reader has reported its failure
    ghost var stalled: bool       // that failure latched the withhold
    ghost var closed: bool        // a call has returned the failure

    ghost predicate Valid()
      reads this, reader, reader.src
    {
      && reader.Valid()
      && Positioned()
      && history == Tally(u, seen).history
      && (if closed then Settled() else Matches(Tally(u, seen), false))
    }

    /** Where the relay stands in the body. */
    ghost predicate Positioned()
      requires reader.Valid()
      reads `seen, `drained, `stalled, reader, reader.src
    {
      && (!drained ==>
            && !stalled
            && Split(text) == seen + Split(reader.Unread())
            && Tail(text) == Tail(reader.Unread()))
      && (drained ==>
            && reader.Unread() == []
            && seen == AllLines(text)
            && stalled == (reader.src.failure.Stalled? && Tally(u, Split(text)).quiet && !Tally(u, Split(text)).shed))
    }

    /** What the buffers hold while the run goes on, given the account of the lines
        read; terminal is the flag of the call in progress. */
    ghost predicate Matches(t: Account, terminal: bool)
      reads `shedding, `stalled, `sentAny, `written, `reported, `held, `preamble
    {
      && shedding == (t.shed || stalled)
      && sentAny == (written != [])
      && (written == [] ==> !reported)
      && (shedding ==> written == [])
      && (!shedding ==>
            && written + preamble == t.out
            && held == t.held
            && sentAny == !t.quiet
            && (sentAny ==> preamble == [])
            && (reported || terminal) == t.terminal)
    }

    /** Where the relay stands when line, if not empty, is about to be emitted. */
    ghost predicate Poised(t: Account, line: Bytes, terminal: bool)
      reads this
    {
      if line == [] || shedding then Matches(t, terminal)
      else
        && !t.shed && !stalled
        && sentAny == (written != [])
        && (written == [] ==> !reported)
        && (sentAny ==> preamble == [])
        && (reported || terminal) == t.terminal
        && (if IsBlank(line) && !sentAny
            then written + preamble + line == t.out && held == t.held && t.quiet
            else written + preamble + held + line == t.out && t.held == [] && !t.quiet)
    }

    ghost predicate Settled()
      reads this, reader, reader.src
    {
      && drained
      && shedding == Withheld(u, text, reader.src.failure)
      && written == Delivered(u, text, reader.src.failure)
      && reported == (!shedding && Tally(u, AllLines(text)).terminal)
    }

    constructor (u: Upstream, reader: LineReader)
      requires reader.Valid()
      ensures Valid() && !closed && this.u == u && this.reader == reader
      ensures text == reader.Unread() && seen == [] && written == [] && !reported
    {
      this.u, this.reader := u, reader;
      held, preamble, history, shedding, sentAny := [], [], [], false, false;
      text, seen, written := reader.Unread(), [], [];
      reported, drained, stalled, closed := false, false, false, false;
    }

    /** The next bytes for the client, whether they end the response, and the failure of
        the body once it is exhausted. */
    method Next() returns (out: Bytes, terminal: bool, err: Option<ReadError>)
      requires Valid() && !closed
      modifies this, reader, reader.src
      ensures Valid()
      ensures written == old(written) + out
      ensures reported == (old(reported) || terminal)
      ensures closed == err.Some? && (closed ==> err == Some(reader.src.failure))
      ensures !closed ==> |reader.Unread()| < old(|reader.Unread()|)
      ensures shedding ==> out == [] && !terminal
      ensures old(shedding) ==> shedding
    {
      out, terminal, err := [], false, None;
      var done := false;
      while !done
        invariant reader.Valid() && Positioned() && history == Tally(u, seen).history
        invariant !done ==> !closed && Matches(Tally(u, seen), terminal) && out == [] && err.None?
        invariant done ==> Valid() && closed == err.Some?
        invariant written == old(written) + out
        invariant reported == (old(reported) || (done && terminal))
        invariant closed ==> err == Some(reader.src.failure)
        invariant |reader.Unread()| <= old(|reader.Unread()|)
        invariant done && !closed ==> |reader.Unread()| < old(|reader.Unread()|)
        invariant shedding ==> out == [] && !terminal
        invariant old(shedding) ==> shedding
        decreases !done, |reader.Unread()|
      {
        out, terminal, err, done := TakeLine(terminal);
      }
    }

    /** Takes one line in; done when there is something to return for it. */
    method TakeLine(ended: bool) returns (out: Bytes, terminal: bool, err: Option<ReadError>, done: bool)
      requires reader.Valid() && Positioned() && history == Tally(u, seen).history
      requires !closed && Matches(Tally(u, seen), ended)
      requires shedding ==> !ended
      modifies this, reader, reader.src
      ensures reader.Valid() && Positioned() && history == Tally(u, seen).history
      ensures written == old(written) + out
      ensures shedding ==> out == [] && !terminal
      ensures old(shedding) ==> shedding
      ensures |reader.Unread()| < old(|reader.Unread()|) || closed
      ensures |reader.Unread()| <= old(|reader.Unread()|)
      ensures !done ==> !closed && out == [] && err.None? && reported == old(reported)
      ensures !done ==> Matches(Tally(u, seen), terminal)
      ensures done ==> reported == (old(reported) || terminal)
      ensures done ==> closed == err.Some? && (closed ==> err == Some(reader.src.failure))
      ensures done ==> if closed then Settled() else Matches(Tally(u, seen), false)
    {
      hide Tally, IsBlank, Positioned, Poised, Settled, LineReader.Valid, LineReader.Unread;
      out, terminal, err, done := [], ended, None, false;
      var line, rerr, buffered;
      line, rerr, terminal, buffered := Frame(ended);
      if !buffered {
        out, terminal, buffered := Emit(line, rerr.Some?, terminal, Tally(u, seen));
        if !buffered && (out != [] || rerr.Some?) {
          reported := reported || terminal;
          closed := rerr.Some?;
          err, done := rerr, true;
          if closed {
            Settle(Tally(u, seen));
          }
        }
      }
    }

    /** A drained body and emptied buffers make the final account. */
    lemma Settle(t: Account)
      requires reader.Valid() && Positioned() && drained
      requires t == Tally(u, seen)
      requires shedding == (t.shed || stalled)
      requires shedding ==> written == [] && !reported
      requires !shedding ==> written == t.out + if t.quiet then [] else t.held
      requires !shedding ==> reported == t.terminal
      ensures Settled()
    {
      LastLine(u, text);
    }

    /** Emits the line with the event name it resolves, behind whatever was buffered; at
        the end of the body, releases what is left. A blank line that closes a buffered
        or dropped event is itself buffered. */
    method Emit(chosen: Bytes, last: bool, ended: bool, ghost t: Account) returns (out: Bytes, terminal: bool, buffered: bool)
      requires Poised(t, chosen, ended)
      modifies `held, `preamble, `sentAny, `written
      ensures written == old(written) + out
      ensures terminal == (!shedding && ended)
      ensures shedding == (t.shed || stalled)
      ensures !shedding ==> (reported || terminal) == t.terminal
      ensures shedding ==> out == [] && Matches(t, terminal)
      ensures buffered ==> chosen != [] && out == []
      ensures buffered || !last ==> Matches(t, terminal)
      ensures !buffered && last && !shedding ==> written == t.out + if t.quiet then [] else t.held
    {
      hide IsBlank;
      out, terminal, buffered := [], ended, false;
      var line := chosen;
      if shedding {
        held, line, terminal := [], [], false;
      }
      if !sentAny && !shedding && line != [] && IsBlank(line) {
        preamble, buffered := preamble + line, true;
        return;
      }
      Regroup(written, preamble, held, line);
      if line != [] {
        out, held := held + line, [];
      } else if last && held != [] && !shedding {
        if sentAny {
          out := held;
        }
        held := [];
      }
      if preamble != [] && !shedding && (out != [] || last) {
        out, preamble := preamble + out, [];
      }
      if out != [] {
        sentAny := true;
      }
      written := written + out;
    }

    /** Reads one line and decides it. */
    method Frame(ended: bool) returns (line: Bytes, rerr: Option<ReadError>, terminal: bool, buffered: bool)
      requires reader.Valid() && Positioned() && history == Tally(u, seen).history
      requires Matches(Tally(u, seen), ended)
      modifies reader, reader.src, `shedding, `held, `preamble, `history, `seen, `drained, `stalled
      ensures reader.Valid() && Positioned() && history == Tally(u, seen).history
      ensures |reader.Unread()| < old(|reader.Unread()|) || (line == [] && !buffered && rerr.Some?)
      ensures |reader.Unread()| <= old(|reader.Unread()|)
      ensures rerr.Some? ==> rerr == Some(reader.src.failure) && drained
      ensures old(shedding) ==> shedding
      ensures buffered ==> !shedding && Matches(Tally(u, seen), terminal)
      ensures !buffered ==> Poised(Tally(u, seen), line, terminal)
    {
      hide Tally, IsBlank, Positioned, Matches, LineReader.Valid, LineReader.Unread;
      ghost var before := seen;
      terminal, buffered := ended, false;
      line, rerr := Pull(ended);
      if line != [] {
        line, terminal, buffered := Classify(line, terminal, before);
      }
    }

    /** Reads one line and latches the withhold on a stall that nothing preceded. */
    method Pull(ghost terminal: bool) returns (line: Bytes, rerr: Option<ReadError>)
      requires reader.Valid() && Positioned() && Matches(Tally(u, seen), terminal)
      modifies reader, reader.src, `shedding, `held, `preamble, `seen, `drained, `stalled
      ensures reader.Valid() && Positioned()
      ensures |reader.Unread()| == old(|reader.Unread()|) - |line|
      ensures line == [] ==> rerr.Some?
      ensures rerr.Some? ==> rerr == Some(reader.src.failure) && drained
      ensures old(shedding) ==> shedding
      ensures seen == if line == [] then old(seen) else old(seen) + [line]
      ensures Matches(Tally(u, old(seen)), terminal)
    {
      hide Split, Tail, HeadLine, AllLines, Tally, Matches, LineReader.Valid, LineReader.Unread;
      ghost var rest := reader.Unread();
      NextLine(rest);
      LastLine(u, text);
      line, rerr := reader.ReadLine();
      MatchesMeans(Tally(u, seen), terminal);
      // Stalled means the transport gave up waiting; no refusal line will come.
      if rerr.Some? && !sentAny && !shedding && rerr.value.Stalled? {
        Park(Tally(u, seen), terminal);
      }
      assert seen + [] == seen;
      assert seen + ([line] + Split(reader.Unread())) == seen + [line] + Split(reader.Unread());
      if line != [] {
        seen := seen + [line];
      }
      drained := drained || rerr.Some?;
    }

    lemma MatchesMeans(t: Account, terminal: bool)
      requires Matches(t, terminal)
      ensures shedding == (t.shed || stalled)
      ensures !shedding ==> sentAny == !t.quiet
    {
    }

    /** Latches the withhold on a stall. */
    method Park(ghost t: Account, ghost terminal: bool)
      requires Matches(t, terminal) && !sentAny && !shedding
      modifies `shedding, `held, `preamble, `stalled
      ensures Matches(t, terminal) && shedding && stalled
    {
      shedding, held, preamble := true, [], [];
      stalled := true;
    }

    /** Decides one line: it is absorbed into the preamble (buffered), dropped or
        withheld (an empty result), or handed on to be emitted. */
    method Classify(whole: Bytes, ended: bool, ghost prev: seq<Bytes>)
      returns (line: Bytes, terminal: bool, buffered: bool)
      requires whole != [] && seen == prev + [whole]
      requires history == Tally(u, prev).history && Matches(Tally(u, prev), ended)
      modifies `held, `preamble, `history, `shedding
      ensures history == Tally(u, seen).history
      ensures old(shedding) ==> shedding
      ensures buffered ==> line == [] && !shedding && Matches(Tally(u, seen), terminal)
      ensures !buffered ==> Poised(Tally(u, seen), line, terminal)
    {
      hide KindOf, IsBlank, Forwarded, Tally;
      KindBlank(whole);
      TallySnoc(u, prev, whole);
      line, terminal, buffered := whole, ended, false;
      match KindOf(line) {
        case EventName =>
          if !shedding {
            held := line;
          }
          line := [];
        case Json(payload) =>
          line, terminal, buffered := ClassifyData(whole, payload, ended, Tally(u, prev));
        case _ =>
      }
    }

    /** The decision on a data line that carries an object. */
    method ClassifyData(whole: Bytes, payload: Bytes, ended: bool, ghost t: Account)
      returns (line: Bytes, terminal: bool, buffered: bool)
      requires KindOf(whole) == Json(payload)
      requires history == t.history && Matches(t, ended)
      modifies `held, `preamble, `history, `shedding
      ensures history == Step(u, t, whole).history
      ensures old(shedding) ==> shedding
      ensures buffered ==> line == [] && !shedding && Matches(Step(u, t, whole), terminal)
      ensures !buffered ==> Poised(Step(u, t, whole), line, terminal)
    {
      hide KindOf, IsBlank, Rebuild, TrimRight, IsTerminal, IsPreamble;
      KindBlank(whole);
      line, terminal, buffered := whole, ended, false;
      var repaired := u.observe(history, payload);
      if repaired != payload {
        line := Rebuild(repaired, line);
      }
      var n := |history|;
      history := history + [payload];
      if u.classify(repaired) == Retryable {
        if !sentAny {
          shedding, held, preamble := true, [], [];
          return [], terminal, false;
        }
        var demoted := u.demote(repaired);
        if demoted.Some? {
          line := Rebuild(demoted.value, line);
        }
      }
      var scrubbed := u.scrub(line);
      assert !shedding ==> scrubbed == Forwarded(u, t.history, whole, payload);
      if IsTerminal(u, repaired) && !shedding {
        terminal := true;
      }
      if !sentAny && !shedding && IsPreamble(u, repaired) && u.capOpen(n) {
        if scrubbed.Some? {
          Regroup(written, preamble, held, scrubbed.value);
          preamble := preamble + held + scrubbed.value;
        }
        held := [];
        return [], terminal, true;
      }
      if scrubbed.None? {
        line, held := [], [];
      } else {
        line := scrubbed.value;
      }
    }
  }

  lemma Regroup(a: Bytes, b: Bytes, c: Bytes, d: Bytes)
    ensures a + (b + c + d) == a + b + c + d
    ensures a + (b + (c + d)) == a + b + c + d
    ensures a + (b + d) == a + b + d
  {
  }

  /** Once the account has moved on, an unterminated last line cannot move it back. */
  lemma LastLine(u: Upstream, text: Bytes)
    ensures Tail(text) == [] ==> AllLines(text) == Split(text)
    ensures Tail(text) != [] ==> AllLines(text) == Split(text) + [Tail(text)]
    ensures Tally(u, AllLines(text)).quiet ==> Tally(u, Split(text)).quiet
    ensures Tally(u, Split(text)).shed ==> Tally(u, AllLines(text)).shed
  {
    hide Split, Tail, Tally, Step;
    assert Split(text) + [] == Split(text);
    TallySnoc(u, Split(text), Tail(text));
    StepForward(u, Tally(u, Split(text)), Tail(text));
  }

  lemma StepForward(u: Upstream, t: Account, line: Bytes)
    ensures Step(u, t, line).quiet ==> t.quiet
    ensures t.shed ==> Step(u, t, line).shed
  {
    hide KindOf, Forwarded, IsPreamble, IsTerminal;
  }
}
