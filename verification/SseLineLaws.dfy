/** How lines of the event stream are read, and what the relay may turn a data line into.
    The grammar is that of section 9.2.5 of the WHATWG HTML Standard. */
module SseLineLaws {
  import opened Common
  import opened LineFraming
  import opened SseRelay
  import opened SseRelayLaws

  predicate LineEnd(s: Bytes) {
    forall i :: 0 <= i < |s| ==> s[i] == NL || s[i] == CR
  }

  /** An object as it stands in a data line: nothing around it to trim. */
  predicate Clean(payload: Bytes) {
    payload != [] && payload[0] == OPEN_BRACE && !IsSpace(payload[|payload| - 1])
  }

  lemma {:induction false} TrimsTo(body: Bytes, end: Bytes)
    requires LineEnd(end)
    requires body != [] ==> body[|body| - 1] != NL && body[|body| - 1] != CR
    ensures TrimRight(body + end) == body
  {
    if end == [] {
      assert body + end == body;
    } else {
      assert (body + end)[..|body + end| - 1] == body + end[..|end| - 1];
      TrimsTo(body, end[..|end| - 1]);
    }
  }

  lemma {:induction false} EndTrimmed(line: Bytes)
    ensures LineEnd(line[|TrimRight(line)|..])
    ensures var t := TrimRight(line); t != [] ==> t[|t| - 1] != NL && t[|t| - 1] != CR
  {
    if line != [] && (line[|line| - 1] == NL || line[|line| - 1] == CR) {
      var front := line[..|line| - 1];
      EndTrimmed(front);
      assert line[|TrimRight(line)|..] == front[|TrimRight(front)|..] + [line[|line| - 1]];
    }
  }

  lemma {:induction false} TrimsSpace(lead: Bytes, payload: Bytes)
    requires Clean(payload) && forall i :: 0 <= i < |lead| ==> IsSpace(lead[i])
    ensures TrimSpace(lead + payload) == payload
    decreases |lead|
  {
    if lead == [] {
      assert lead + payload == payload;
    } else {
      assert (lead + payload)[1..] == lead[1..] + payload;
      TrimsSpace(lead[1..], payload);
    }
  }

  /** "data:", white space, an object and a line end are read as that object. */
  lemma DataLineReads(lead: Bytes, payload: Bytes, end: Bytes)
    requires Clean(payload) && LineEnd(end) && forall i :: 0 <= i < |lead| ==> IsSpace(lead[i])
    ensures KindOf(DATA_PREFIX + lead + payload + end) == Json(payload)
  {
    var trim := DATA_PREFIX + lead + payload;
    TrimsTo(trim, end);
    assert trim[5..] == lead + payload;
    TrimsSpace(lead, payload);
    hide TrimSpace, TrimRight, IsBlank;
  }

  /** "event:" and anything after it is a name. */
  lemma {:induction false} EventLineReads(name: Bytes)
    ensures KindOf(EVENT_PREFIX + name).EventName?
  {
    if name != [] && (name[|name| - 1] == NL || name[|name| - 1] == CR) {
      assert (EVENT_PREFIX + name)[..|EVENT_PREFIX + name| - 1] == EVENT_PREFIX + name[..|name| - 1];
      EventLineReads(name[..|name| - 1]);
    } else if name == [] {
      assert EVENT_PREFIX + name == EVENT_PREFIX;
    } else {
      assert (EVENT_PREFIX + name)[|EVENT_PREFIX + name| - 1] == name[|name| - 1];
    }
  }

  /** A blank line is one of white space only. */
  lemma BlankLineReads(line: Bytes)
    ensures KindOf(line).Blank? <==> forall i :: 0 <= i < |line| ==> line[i] in [9, 10, 11, 12, 13, 32]
  {
    BlankMeans(line);
    if forall i :: 0 <= i < |line| ==> IsSpace(line[i]) {
      hide IsBlank, JsonPayload;
      assert TrimRight(line) != [] ==> TrimRight(line)[0] == line[0];
    }
  }

  lemma {:induction false} BlankMeans(line: Bytes)
    ensures IsBlank(line) <==> forall i :: 0 <= i < |line| ==> IsSpace(line[i])
  {
    if line != [] {
      if IsSpace(line[0]) {
        BlankMeans(line[1..]);
        assert forall i :: 0 < i < |line| ==> line[i] == line[1..][i - 1];
      } else {
        KeepsFirst(line);
      }
    }
  }

  /** The carriage returns and newlines a line ends with. */
  function Ending(line: Bytes): Bytes {
    line[|TrimRight(line)|..]
  }

  /** A rewritten data line is read as its new payload, and ends as the old line did. */
  lemma RebuiltReadsBack(payload: Bytes, line: Bytes)
    requires Clean(payload)
    ensures KindOf(Rebuild(payload, line)) == Json(payload)
    ensures Ending(Rebuild(payload, line)) == Ending(line)
  {
    var end := Ending(line);
    EndTrimmed(line);
    DataLineReads([32], payload, end);
    TrimsTo(DATA_LEAD + payload, end);
    hide KindOf, TrimRight, LineEnd;
    assert DATA_LEAD + payload + end == DATA_PREFIX + [32] + payload + end;
    assert (DATA_LEAD + payload + end)[|DATA_LEAD + payload|..] == end;
  }

  /** It is one line if the old one was. */
  lemma RebuiltIsOneLine(payload: Bytes, line: Bytes)
    requires EndsAtOnlyNewline(line) && NL !in payload
    ensures EndsAtOnlyNewline(Rebuild(payload, line))
  {
    EndTrimmed(line);
    OneLineEnd(line, TrimRight(line), Ending(line));
    RejoinsAsLine(DATA_LEAD + payload, Ending(line));
  }

  lemma RejoinsAsLine(body: Bytes, end: Bytes)
    requires NL !in body && end != [] && end[|end| - 1] == NL && NL !in end[..|end| - 1]
    ensures EndsAtOnlyNewline(body + end)
  {
    var line := body + end;
    assert line[..|line| - 1] == body + end[..|end| - 1];
  }

  lemma OneLineEnd(line: Bytes, body: Bytes, end: Bytes)
    requires EndsAtOnlyNewline(line) && line == body + end
    requires body != [] ==> body[|body| - 1] != NL
    ensures end != [] && end[|end| - 1] == NL && NL !in end[..|end| - 1]
  {
    assert end == [] ==> body == line;
    if end != [] {
      assert line[..|line| - 1] == body + end[..|end| - 1];
    }
  }

  /** The line shown to the scrubber: upstream's own, or rewritten around the repaired
      payload, or around the replacement for a refusal that has one. */
  lemma ShownLine(u: Upstream, history: seq<Bytes>, line: Bytes, payload: Bytes) returns (shown: Bytes)
    requires KindOf(line) == Json(payload) && WellBehaved(u, history, payload)
    ensures
      var repaired := u.observe(history, payload);
      var replaced := u.classify(repaired) == Retryable && u.demote(repaired).Some?;
      && (repaired == payload && !replaced ==> shown == line)
      && KindOf(shown) == Json(if replaced then u.demote(repaired).value else repaired)
      && Ending(shown) == Ending(line)
    ensures u.scrub(shown) == Forwarded(u, history, line, payload)
  {
    var repaired := u.observe(history, payload);
    var whole := if repaired == payload then line else Rebuild(repaired, line);
    RebuiltReadsBack(repaired, line);
    shown := whole;
    if u.classify(repaired) == Retryable && u.demote(repaired).Some? {
      shown := Rebuild(u.demote(repaired).value, whole);
      RebuiltReadsBack(u.demote(repaired).value, whole);
    }
    hide KindOf, Ending, Rebuild;
  }

  /** The accumulator and the demotion hand out clean objects. */
  predicate WellBehaved(u: Upstream, history: seq<Bytes>, payload: Bytes) {
    var repaired := u.observe(history, payload);
    Clean(repaired) && (u.demote(repaired).Some? ==> Clean(u.demote(repaired).value))
  }

  /** What becomes of one data line, both in the unbuffered stream and, unless it makes the
      relay withhold the turn, in what the relay owes. The line shown to the scrubber is upstream's own
      unless something had to be rewritten; then it is read as the replacement or as the
      repaired payload, and ends as upstream's line did. */
  lemma DataLineHandedOn(u: Upstream, t: Account, line: Bytes, payload: Bytes) returns (shown: Bytes)
    requires KindOf(line) == Json(payload) && WellBehaved(u, t.history, payload)
    ensures
      var repaired := u.observe(t.history, payload);
      var replaced := u.classify(repaired) == Retryable && u.demote(repaired).Some?;
      && (repaired == payload && !replaced ==> shown == line)
      && KindOf(shown) == Json(if replaced then u.demote(repaired).value else repaired)
      && Ending(shown) == Ending(line)
    ensures Piece(u, t.history, line) == match u.scrub(shown) { case None => [] case Some(kept) => kept }
    ensures !(t.quiet && u.classify(u.observe(t.history, payload)) == Retryable) ==>
      Step(u, t, line).out == match u.scrub(shown) { case None => t.out case Some(kept) => t.out + t.held + kept }
  {
    shown := ShownLine(u, t.history, line, payload);
    hide KindOf, Ending, Forwarded, WellBehaved, IsPreamble, IsTerminal;
  }
}
