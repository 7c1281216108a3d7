/** The chat-completions bridge: one upstream event may expand into several client frames,
    or none, and a refusal that arrives before any of them leaves no trace. */
module ChatBridge {
  import opened Common
  import opened LineFraming
  import opened SseRelay
  import opened SseRelayLaws

  /** The library functions the bridge consults. translate sees every payload translated
      before, because the converter is stateful. */
  datatype Converter = Converter(
    classify: Bytes -> Class,
    capacity: Bytes -> bool,
    usage: Bytes -> int,
    failureOf: Bytes -> Option<Bytes>,
    translate: (seq<Bytes>, Bytes) -> seq<Bytes>,
    isDone: Bytes -> bool)

  /** What a run reports to its caller. */
  datatype StreamResult = StreamResult(
    sawTerminal: bool, err: ReadError, shed: bool, failure: Option<Bytes>,
    demoted: bool, demotedCapacity: bool, counts: int)

  /** All frames of some payloads, in order. */
  function Frames(c: Converter, payloads: seq<Bytes>): seq<Bytes> {
    if payloads == [] then []
    else
      var before := payloads[..|payloads| - 1];
      Frames(c, before) + c.translate(before, payloads[|payloads| - 1])
  }

  /** Payload k is a refusal and nothing before it was worth a frame. */
  predicate RefusedBeforeOutput(c: Converter, payloads: seq<Bytes>, k: nat) {
    k < |payloads| && c.classify(payloads[k]) == Retryable && Frames(c, payloads[..k]) == []
  }

  ghost predicate Sheds(c: Converter, payloads: seq<Bytes>) {
    exists k :: RefusedBeforeOutput(c, payloads, k)
  }

  function Billed(c: Converter, payloads: seq<Bytes>): int {
    if payloads == [] then 0
    else Billed(c, payloads[..|payloads| - 1]) + c.usage(payloads[|payloads| - 1])
  }

  /** The failure the last failing payload carries. */
  function LastFailure(c: Converter, payloads: seq<Bytes>): Option<Bytes> {
    if payloads == [] then None
    else
      var f := c.failureOf(payloads[|payloads| - 1]);
      if f.Some? then f else LastFailure(c, payloads[..|payloads| - 1])
  }

  /** The last payload that is a refusal. */
  function LastRefusal(c: Converter, payloads: seq<Bytes>): Option<Bytes> {
    if payloads == [] then None
    else
      var p := payloads[|payloads| - 1];
      if c.classify(p) == Retryable then Some(p) else LastRefusal(c, payloads[..|payloads| - 1])
  }

  /** The frames the client receives over a whole run. */
  ghost function Owed(c: Converter, text: Bytes): seq<Bytes> {
    var payloads := Payloads(AllLines(text));
    if Sheds(c, payloads) then [] else Frames(c, payloads)
  }

  predicate AnyDone(c: Converter, frames: seq<Bytes>) {
    exists i :: 0 <= i < |frames| && c.isDone(frames[i])
  }

  class Bridge {
    const c: Converter
    const reader: LineReader
    var pending: seq<Bytes>
    var history: seq<Bytes>
    var shedding: bool
    var sentAny: bool
    var counts: int
    var failure: Option<Bytes>
    var demoted: bool
    var demotedCapacity: bool

    ghost const text: Bytes         // the whole upstream body
    ghost var seen: seq<Bytes>      // lines read so far
    ghost var emitted: seq<Bytes>   // frames handed to the client so far
    ghost var drained: bool         // the reader has reported its failure

    ghost predicate Valid()
      reads this, reader, reader.src
    {
      && reader.Valid()
      && Positioned()
      && Accounts(Payloads(seen))
    }

    ghost predicate Positioned()
      requires reader.Valid()
      reads `seen, `drained, reader, reader.src
    {
      if drained then reader.Unread() == [] && seen == AllLines(text)
      else Split(text) == seen + Split(reader.Unread()) && Tail(text) == Tail(reader.Unread())
    }

    ghost predicate Accounts(payloads: seq<Bytes>)
      reads `pending, `history, `shedding, `sentAny, `counts, `failure, `demoted, `demotedCapacity, `emitted
    {
      && shedding == Sheds(c, payloads)
      && counts == Billed(c, payloads)
      && sentAny == (emitted != [])
      && (demoted ==> sentAny)
      && (shedding ==> emitted == [] && pending == [] && !demoted && failure == LastFailure(c, history) && history <= payloads)
      && (!shedding ==>
            && history == payloads
            && emitted + pending == Frames(c, payloads)
            && failure == LastFailure(c, payloads)
            && demoted == LastRefusal(c, payloads).Some?
            && (demoted ==> demotedCapacity == c.capacity(LastRefusal(c, payloads).value)))
    }

    constructor (c: Converter, reader: LineReader)
      requires reader.Valid()
      ensures Valid() && !drained && pending == [] && emitted == []
      ensures this.c == c && this.reader == reader && text == reader.Unread()
    {
      this.c, this.reader := c, reader;
      pending, history, shedding, sentAny := [], [], false, false;
      counts, failure, demoted, demotedCapacity := 0, None, false, false;
      text, seen, emitted, drained := reader.Unread(), [], [], false;
    }

    /** The next frame for the client, if any, or the failure of the body once every
        frame is out. */
    method Next() returns (frame: Option<Bytes>, terminal: bool, err: Option<ReadError>)
      requires Valid()
      modifies this, reader, reader.src
      ensures Valid()
      ensures emitted == old(emitted) + if frame.Some? then [frame.value] else []
      ensures frame.None? == err.Some?
      ensures terminal == (frame.Some? && c.isDone(frame.value))
      ensures err.Some? ==> err == Some(reader.src.failure) && drained && pending == []
      ensures err.None? ==>
        || |reader.Unread()| < old(|reader.Unread()|)
        || (|reader.Unread()| == old(|reader.Unread()|) && |pending| < old(|pending|))
    {
      hide Positioned, Accounts, LineReader.Valid, LineReader.Unread, Payloads;
      while true
        invariant Valid() && emitted == old(emitted)
        invariant |reader.Unread()| < old(|reader.Unread()|)
               || (|reader.Unread()| == old(|reader.Unread()|) && pending == old(pending))
        decreases |reader.Unread()|, if pending == [] then 1 else 0
      {
        if pending != [] {
          frame := PopFrame();
          return frame, c.isDone(frame.value), None;
        }
        var line, rerr := Pull();
        if line != [] {
          Absorb(line);
        }
        if rerr.Some? {
          if pending != [] && !shedding {
            continue;
          }
          PendingWhileShedding();
          return None, false, rerr;
        }
      }
    }

    lemma PendingWhileShedding()
      requires Valid()
      ensures shedding ==> pending == []
    {
    }

    method PopFrame() returns (frame: Option<Bytes>)
      requires Valid() && pending != []
      modifies `pending, `emitted, `sentAny
      ensures Valid()
      ensures frame == Some(old(pending)[0]) && pending == old(pending)[1..]
      ensures emitted == old(emitted) + [frame.value]
    {
      hide Positioned, LineReader.Valid, LineReader.Unread, Payloads, Sheds, Frames, Billed, LastFailure, LastRefusal;
      frame := Some(pending[0]);
      assert emitted + pending == emitted + [pending[0]] + pending[1..];
      pending := pending[1..];
      emitted := emitted + [frame.value];
      sentAny := true;
    }

    /** Reads one line; the account is then one line behind. */
    method Pull() returns (line: Bytes, rerr: Option<ReadError>)
      requires Valid()
      modifies reader, reader.src, `seen, `drained
      ensures reader.Valid() && Positioned()
      ensures |reader.Unread()| == old(|reader.Unread()|) - |line|
      ensures rerr.None? ==> line != []
      ensures rerr.Some? ==> rerr == Some(reader.src.failure) && drained
      ensures seen == if line == [] then old(seen) else old(seen) + [line]
      ensures Accounts(Payloads(old(seen)))
    {
      hide Split, Tail, HeadLine, AllLines, LineReader.Valid, LineReader.Unread, Accounts;
      ghost var rest := reader.Unread();
      NextLine(rest);
      EveryLine(text);
      line, rerr := reader.ReadLine();
      assert seen + [] == seen;
      assert seen + ([line] + Split(reader.Unread())) == seen + [line] + Split(reader.Unread());
      if line != [] {
        seen := seen + [line];
      }
      drained := drained || rerr.Some?;
    }

    /** Takes a line into the account. Nothing is pending here: the loop reads only once
        it has drained, so a refusal before output has nothing to unwind. */
    method Absorb(line: Bytes)
      requires reader.Valid() && Positioned() && pending == []
      requires seen != [] && seen[|seen| - 1] == line && Accounts(Payloads(seen[..|seen| - 1]))
      modifies `pending, `history, `shedding, `counts, `failure, `demoted, `demotedCapacity
      ensures Valid()
    {
      hide KindOf, Positioned, Accounts, LineReader.Valid, LineReader.Unread;
      var trim := TrimRight(line);
      ghost var before := Payloads(seen[..|seen| - 1]);
      JsonKind(line);
      if DATA_PREFIX <= trim {
        var payload := TrimSpace(trim[5..]);
        if payload != [] && payload[0] == OPEN_BRACE {
          assert Payloads(seen) == before + [payload];
          Translate(payload, before);
          return;
        }
      }
      assert Payloads(seen) == before + [];
      assert before + [] == before;
    }

    method Translate(payload: Bytes, ghost before: seq<Bytes>)
      requires Accounts(before) && pending == []
      modifies `pending, `history, `shedding, `counts, `failure, `demoted, `demotedCapacity
      ensures Accounts(before + [payload])
    {
      hide Frames, Billed, LastFailure, Sheds, LastRefusal;
      PayloadSnoc(c, before, payload);
      assert emitted + pending == emitted;
      counts := counts + c.usage(payload);
      if !shedding && c.classify(payload) == Retryable {
        if !sentAny {
          shedding := true;
        } else {
          demoted, demotedCapacity := true, c.capacity(payload);
        }
      }
      if !shedding {
        var f := c.failureOf(payload);
        if f.Some? {
          failure := f;
        }
        pending := pending + c.translate(history, payload);
        history := history + [payload];
      }
    }
  }

  lemma JsonKind(line: Bytes)
    ensures KindOf(line).Json? <==> DATA_PREFIX <= TrimRight(line) && JsonPayload(TrimRight(line)) != []
    ensures KindOf(line).Json? ==> KindOf(line).payload == JsonPayload(TrimRight(line))
  {
    if EVENT_PREFIX <= TrimRight(line) {
      assert TrimRight(line)[0] == EVENT_PREFIX[0] != DATA_PREFIX[0];
    }
  }

  lemma EveryLine(text: Bytes)
    ensures Tail(text) == [] ==> AllLines(text) == Split(text)
    ensures Tail(text) != [] ==> AllLines(text) == Split(text) + [Tail(text)]
  {
  }

  /** What one more payload changes. */
  lemma PayloadSnoc(c: Converter, ps: seq<Bytes>, p: Bytes)
    ensures Frames(c, ps + [p]) == Frames(c, ps) + c.translate(ps, p)
    ensures Billed(c, ps + [p]) == Billed(c, ps) + c.usage(p)
    ensures LastFailure(c, ps + [p]) == if c.failureOf(p).Some? then c.failureOf(p) else LastFailure(c, ps)
    ensures Sheds(c, ps + [p]) == (Sheds(c, ps) || (c.classify(p) == Retryable && Frames(c, ps) == []))
    ensures LastRefusal(c, ps + [p]) == if c.classify(p) == Retryable then Some(p) else LastRefusal(c, ps)
  {
    var more := ps + [p];
    assert more[..|ps|] == ps;
    assert forall k :: 0 <= k <= |ps| ==> more[..k] == ps[..k];
    assert forall k: nat :: k < |ps| ==> RefusedBeforeOutput(c, more, k) == RefusedBeforeOutput(c, ps, k);
    assert RefusedBeforeOutput(c, more, |ps|) == (c.classify(p) == Retryable && Frames(c, ps) == []);
  }

  /** Runs the bridge as its driver does. Whatever the chunking, and even when the last
      line comes with the failure, the client receives every translation in order, or
      nothing at all; every payload is billed either way. */
  method BridgeStream(c: Converter, chunks: seq<Bytes>, failure: ReadError, eager: bool)
    returns (frames: seq<Bytes>, r: StreamResult)
    ensures frames == Owed(c, Flatten(chunks))
    ensures r.err == failure && r.sawTerminal == AnyDone(c, frames)
    ensures
      var payloads := Payloads(AllLines(Flatten(chunks)));
      && r.shed == Sheds(c, payloads)
      && r.counts == Billed(c, payloads)
      && (!r.shed ==>
            && r.failure == LastFailure(c, payloads)
            && r.demoted == LastRefusal(c, payloads).Some?
            && (r.demoted ==> r.demotedCapacity == c.capacity(LastRefusal(c, payloads).value)))
  {
    hide Sheds, Frames, Billed, LastFailure, LastRefusal, Payloads, AllLines, Split, Tail;
    var src := new Source(chunks, failure, eager);
    var reader := new LineReader(src);
    var bridge := new Bridge(c, reader);
    frames := [];
    var sawTerminal := false;
    while true
      invariant bridge.Valid() && bridge.reader == reader && reader.src == src && bridge.c == c
      invariant bridge.text == Flatten(chunks) && src.failure == failure
      invariant fresh(bridge) && fresh(reader) && fresh(src)
      invariant frames == bridge.emitted && sawTerminal == AnyDone(c, frames)
      decreases |reader.Unread()|, |bridge.pending|
    {
      var frame, terminal, e := bridge.Next();
      if e.Some? {
        return frames, StreamResult(
          sawTerminal, e.value, bridge.shedding, bridge.failure, bridge.demoted, bridge.demotedCapacity, bridge.counts);
      }
      DoneSnoc(c, frames, frame.value);
      frames, sawTerminal := frames + [frame.value], sawTerminal || terminal;
    }
  }

  lemma DoneSnoc(c: Converter, frames: seq<Bytes>, frame: Bytes)
    ensures AnyDone(c, frames + [frame]) == (AnyDone(c, frames) || c.isDone(frame))
  {
    var more := frames + [frame];
    assert more[|frames|] == frame;
    assert forall i :: 0 <= i < |frames| ==> more[i] == frames[i];
  }

  /** Nothing to begin with, and nothing but the payloads: usage adds up over any cut of a
      stream, a failure is reported exactly when some payload carries one, and a refusal is
      on record exactly when some payload is one. */
  lemma {:induction false} OnlyWhatCame(c: Converter, a: seq<Bytes>, b: seq<Bytes>)
    ensures Frames(c, []) == [] && Billed(c, []) == 0
    ensures Billed(c, a + b) == Billed(c, a) + Billed(c, b)
    ensures LastFailure(c, b).Some? <==> exists i :: 0 <= i < |b| && c.failureOf(b[i]).Some?
    ensures LastRefusal(c, b).Some? <==> exists i :: 0 <= i < |b| && c.classify(b[i]) == Retryable
  {
    if b == [] {
      assert a + b == a;
    } else {
      var before, last := b[..|b| - 1], b[|b| - 1];
      assert b == before + [last] && a + b == (a + before) + [last];
      OnlyWhatCame(c, a, before);
      PayloadSnoc(c, a + before, last);
      PayloadSnoc(c, before, last);
      hide Frames, Billed, LastFailure, LastRefusal;
      assert forall i :: 0 <= i < |before| ==> b[i] == before[i];
    }
  }

  lemma OnePayload(c: Converter, p: Bytes)
    ensures Billed(c, [p]) == c.usage(p) && Frames(c, [p]) == c.translate([], p)
  {
    assert [p][..0] == [];
  }

  /** Each payload's frames sit in one block, right after those of all payloads before it. */
  lemma {:induction false} TranslationInPlace(c: Converter, payloads: seq<Bytes>, k: nat)
    requires k < |payloads|
    ensures Frames(c, payloads[..k]) + c.translate(payloads[..k], payloads[k]) <= Frames(c, payloads)
  {
    var before := payloads[..|payloads| - 1];
    if k < |before| {
      TranslationInPlace(c, before, k);
      assert before[..k] == payloads[..k];
    }
  }

  /** A turn is withheld exactly when its first refusal precedes its first frame. */
  lemma {:induction false} ShedsMeans(c: Converter, payloads: seq<Bytes>, first: nat)
    requires first < |payloads| && c.classify(payloads[first]) == Retryable
    requires forall j :: 0 <= j < first ==> c.classify(payloads[j]) != Retryable
    ensures Sheds(c, payloads) <==> Frames(c, payloads[..first]) == []
  {
    assert RefusedBeforeOutput(c, payloads, first) == (Frames(c, payloads[..first]) == []);
    if k: nat :| RefusedBeforeOutput(c, payloads, k) {
      FramesGrow(c, payloads, first, k);
    }
  }

  lemma {:induction false} FramesGrow(c: Converter, payloads: seq<Bytes>, i: nat, j: nat)
    requires i <= j <= |payloads|
    ensures |Frames(c, payloads[..i])| <= |Frames(c, payloads[..j])|
  {
    if i < j {
      FramesGrow(c, payloads, i, j - 1);
      assert payloads[..j][..j - 1] == payloads[..j - 1];
    }
  }
}
