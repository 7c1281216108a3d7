/** The buffered line reader under both streaming relays: it frames lines out of
    whatever chunks the transport happens to deliver. */
module LineFraming {
  import opened Common

  datatype ReadError = Eof | Stalled | Broken

  /** An upstream body. It hands out its chunks one per Read (a chunk may be empty)
      and then fails for good. An eager source delivers that failure together with
      the last chunk, which io.Reader allows. */
  class Source {
    var chunks: seq<Bytes>
    const failure: ReadError
    const eager: bool

    constructor (chunks: seq<Bytes>, failure: ReadError, eager: bool)
      ensures this.chunks == chunks && this.failure == failure && this.eager == eager
    {
      this.chunks, this.failure, this.eager := chunks, failure, eager;
    }

    method Read() returns (data: Bytes, err: Option<ReadError>)
      modifies this
      ensures old(chunks) == [] ==> data == [] && chunks == [] && err == Some(failure)
      ensures old(chunks) != [] ==> data == old(chunks)[0] && chunks == old(chunks)[1..]
      ensures old(chunks) != [] ==> err == if eager && |old(chunks)| == 1 then Some(failure) else None
    {
      if chunks == [] {
        return [], Some(failure);
      }
      data, err := chunks[0], if eager && |chunks| == 1 then Some(failure) else None;
      chunks := chunks[1..];
    }
  }

  /** The first line of s with its newline, or all of s when it has none. */
  function HeadLine(s: Bytes): Bytes {
    if NL in s then s[..IndexByte(s, NL) + 1] else s
  }

  /** The newline-terminated lines of s, in order. */
  function Split(s: Bytes): seq<Bytes>
    decreases |s|
  {
    if NL in s then [HeadLine(s)] + Split(s[|HeadLine(s)|..]) else []
  }

  /** What follows the last newline of s. */
  function Tail(s: Bytes): Bytes
    decreases |s|
  {
    if NL in s then Tail(s[|HeadLine(s)|..]) else s
  }

  predicate EndsAtOnlyNewline(line: Bytes) {
    line != [] && line[|line| - 1] == NL && NL !in line[..|line| - 1]
  }

  class LineReader {
    var buf: Bytes
    var pos: nat
    var err: Option<ReadError>
    const src: Source

    ghost predicate Valid()
      reads this, src
    {
      && pos <= |buf|
      && (err.Some? ==> err.value == src.failure && src.chunks == [])
    }

    /** Everything the consumer has not been given yet, whatever its chunking. */
    ghost function Unread(): Bytes
      requires Valid()
      reads this, src
    {
      buf[pos..] + Flatten(src.chunks)
    }

    constructor (src: Source)
      ensures Valid() && this.src == src
      ensures Unread() == Flatten(src.chunks)
    {
      this.src := src;
      buf, pos, err := [], 0, None;
    }

    /** One line with its newline and no error, or, once no newline is left, the
        unterminated rest together with the source's failure. */
    method ReadLine() returns (line: Bytes, rerr: Option<ReadError>)
      requires Valid()
      modifies this, src
      ensures Valid()
      ensures line == HeadLine(old(Unread()))
      ensures Unread() == old(Unread())[|line|..]
      ensures rerr == if NL in old(Unread()) then None else Some(src.failure)
    {
      hide HeadLine, Flatten, Unread;
      ghost var text := Unread();
      assert text[|text|..] == [];
      while true
        invariant Valid() && Unread() == text
        decreases |src.chunks|, if pos > 0 then 1 else 0
      {
        line := TakeLine();
        if line != [] {
          return line, None;
        }
        if err.Some? {
          line := TakeRest();
          return line, err;
        }
        if pos > 0 {
          Compact();
        }
        var more, e := Fill();
        if more {
          continue;
        }
        if e.Some? {
          line := TakeRest();
          return line, e;
        }
      }
    }

    /** The first buffered line, or [] when the buffer has no newline. */
    method TakeLine() returns (line: Bytes)
      requires Valid()
      modifies this
      ensures Valid() && err == old(err)
      ensures line == [] ==> buf == old(buf) && pos == old(pos) && NL !in buf[pos..] && Unread() == old(Unread())
      ensures line != [] ==>
                && NL in old(Unread()) && line == HeadLine(old(Unread()))
                && Unread() == old(Unread())[|line|..]
    {
      hide HeadLine, Flatten;
      var idx := IndexByte(buf[pos..], NL);
      if idx < 0 {
        return [];
      }
      HeadOfPrefix(buf[pos..], Flatten(src.chunks));
      assert buf[pos..][..idx + 1] == buf[pos..pos + idx + 1];
      line := buf[pos..pos + idx + 1];
      pos := pos + idx + 1;
      if pos >= |buf| {
        buf, pos := [], 0;
      }
    }

    /** Drops the consumed part of the buffer. */
    method Compact()
      requires Valid()
      modifies this
      ensures Valid() && err == old(err) && Unread() == old(Unread())
      ensures pos == 0 && buf == old(buf)[old(pos)..]
    {
      buf := buf[pos..];
      pos := 0;
    }

    /** One read; its error is kept for later when it came with data. */
    method Fill() returns (more: bool, e: Option<ReadError>)
      requires Valid() && err.None? && pos == 0
      modifies this, src
      ensures Valid() && Unread() == old(Unread())
      ensures pos == 0 && (more || (err.None? && buf == old(buf)))
      ensures |src.chunks| < old(|src.chunks|) || (!more && e.Some?)
      ensures !more && e.Some? ==> e.value == src.failure && src.chunks == []
    {
      hide Flatten;
      FlattenNothing<Byte>();
      if src.chunks != [] {
        FlattenFront(src.chunks[0], src.chunks[1..]);
        assert src.chunks == [src.chunks[0]] + src.chunks[1..];
      }
      var chunk;
      chunk, e := src.Read();
      more := |chunk| > 0;
      if more {
        buf := buf + chunk;
        err := e;
      }
    }

    /** Whatever is left, which has no newline. */
    method TakeRest() returns (rest: Bytes)
      requires Valid() && src.chunks == [] && NL !in buf[pos..]
      modifies this
      ensures Valid() && err == old(err)
      ensures rest == old(Unread()) == HeadLine(old(Unread())) && NL !in rest && Unread() == []
    {
      if pos < |buf| {
        rest := buf[pos..];
        pos := |buf|;
      } else {
        rest := [];
      }
    }

    /** Reads to the end, as a consumer that stops at the first error does. */
    method ReadAll() returns (lines: seq<Bytes>, tail: Bytes, rerr: ReadError)
      requires Valid()
      modifies this, src
      ensures Valid() && Unread() == []
      ensures lines == Split(old(Unread())) && tail == Tail(old(Unread())) && rerr == src.failure
    {
      hide Split, Tail, HeadLine, Valid, Unread;
      lines := [];
      ghost var text := Unread();
      assert lines + Split(text) == Split(text);
      while true
        invariant Valid()
        invariant lines + Split(Unread()) == Split(old(Unread()))
        invariant Tail(Unread()) == Tail(old(Unread()))
        decreases |Unread()|
      {
        ghost var rest := Unread();
        NextLine(rest);
        var line, e := ReadLine();
        if e.Some? {
          assert lines + [] == lines && rest[|rest|..] == [];
          return lines, line, e.value;
        }
        assert lines + Split(rest) == lines + [line] + Split(rest[|line|..]);
        lines := lines + [line];
      }
    }
  }

  lemma NextLine(rest: Bytes)
    ensures rest != [] ==> HeadLine(rest) != []
    ensures |HeadLine(rest)| <= |rest|
    ensures NL in rest ==> Split(rest) == [HeadLine(rest)] + Split(rest[|HeadLine(rest)|..])
    ensures NL in rest ==> Tail(rest) == Tail(rest[|HeadLine(rest)|..])
    ensures NL !in rest ==> HeadLine(rest) == rest && Split(rest) == [] && Tail(rest) == rest
  {
  }

  /** A newline in the buffered part settles the line; later chunks cannot change it. */
  lemma HeadOfPrefix(a: Bytes, b: Bytes)
    requires NL in a
    ensures NL in a + b
    ensures HeadLine(a + b) == a[..IndexByte(a, NL) + 1]
    ensures (a + b)[IndexByte(a, NL) + 1..] == a[IndexByte(a, NL) + 1..] + b
  {
    hide IndexByte;
    var i := IndexByte(a, NL);
    assert (a + b)[i] == NL && (a + b)[..i] == a[..i];
    FirstIndex(a + b, NL, i);
  }

  /** Reassembly does not depend on the chunking: any split of a text into reads,
      eager or not, gives the text's own lines, tail and failure. */
  method Reassemble(chunks: seq<Bytes>, failure: ReadError, eager: bool)
    returns (lines: seq<Bytes>, tail: Bytes, rerr: ReadError)
    ensures lines == Split(Flatten(chunks))
    ensures tail == Tail(Flatten(chunks))
    ensures rerr == failure
  {
    var src := new Source(chunks, failure, eager);
    var reader := new LineReader(src);
    lines, tail, rerr := reader.ReadAll();
  }

  /** Splitting loses and invents nothing, and cuts exactly after each newline. */
  lemma {:induction false} SplitExact(s: Bytes)
    ensures Flatten(Split(s)) + Tail(s) == s
    ensures forall line :: line in Split(s) ==> EndsAtOnlyNewline(line)
    ensures NL !in Tail(s)
    decreases |s|
  {
    hide *;
    NextLine(s);
    FlattenNothing<Byte>();
    if NL in s {
      var head := HeadLine(s);
      var rest := s[|head|..];
      SplitExact(rest);
      HeadEnds(s);
      FlattenFront(head, Split(rest));
      assert s == head + rest;
    }
  }

  lemma HeadEnds(s: Bytes)
    requires NL in s
    ensures EndsAtOnlyNewline(HeadLine(s)) && HeadLine(s) <= s
  {
    hide IndexByte;
    var i := IndexByte(s, NL);
    assert s[..i + 1][..i] == s[..i];
  }

  lemma SplitCons(head: Bytes, rest: Bytes)
    requires EndsAtOnlyNewline(head)
    ensures Split(head + rest) == [head] + Split(rest)
    ensures Tail(head + rest) == Tail(rest)
  {
    HeadOfPrefix(head, rest);
    assert IndexByte(head, NL) == |head| - 1 by {
      forall k | 0 <= k < |head| - 1
        ensures head[k] != NL
      {
        assert head[k] in head[..|head| - 1];
      }
    }
    assert (head + rest)[|head| - 1] == NL;
    assert HeadLine(head + rest) == head;
    assert (head + rest)[|head|..] == rest;
  }

  /** There is no other way to cut a text into such lines. */
  lemma {:induction false} SplitUnique(lines: seq<Bytes>, tail: Bytes)
    requires forall i :: 0 <= i < |lines| ==> EndsAtOnlyNewline(lines[i])
    requires NL !in tail
    ensures Split(Flatten(lines) + tail) == lines
    ensures Tail(Flatten(lines) + tail) == tail
  {
    if lines == [] {
      assert Flatten(lines) + tail == tail;
    } else {
      var head, rest := lines[0], Flatten(lines[1..]) + tail;
      SplitUnique(lines[1..], tail);
      SplitCons(head, rest);
      assert Flatten(lines) + tail == head + rest;
    }
  }
}
