/** Per-turn billing of a WebSocket session: the pump that cuts a session's running
    totals into turns, and the bounded queue that settles them off the relay's path. */
module TurnBilling {
  import opened Common

  /** Token counts on the seven axes a turn is billed on, and the request count. */
  datatype Counts = Counts(input: int, output: int, cacheCreate: int, cacheRead: int,
                           imageText: int, imageInput: int, imageOutput: int, requests: int)

  const ZERO := Counts(0, 0, 0, 0, 0, 0, 0, 0)

  function Plus(a: Counts, b: Counts): Counts {
    Counts(a.input + b.input, a.output + b.output, a.cacheCreate + b.cacheCreate, a.cacheRead + b.cacheRead,
           a.imageText + b.imageText, a.imageInput + b.imageInput, a.imageOutput + b.imageOutput,
           a.requests + b.requests)
  }

  /** The growth of the totals over one turn, counted as one request. */
  function TurnDelta(cur: Counts, billed: Counts): Counts {
    Counts(cur.input - billed.input, cur.output - billed.output,
           cur.cacheCreate - billed.cacheCreate, cur.cacheRead - billed.cacheRead,
           cur.imageText - billed.imageText, cur.imageInput - billed.imageInput,
           cur.imageOutput - billed.imageOutput, 1)
  }

  /** An upstream frame: only non-empty text frames are inspected. delivered tells
      whether the client could still be written to. */
  datatype Frame = Frame(text: bool, usage: Counts, terminal: bool, dropped: bool, delivered: bool)

  datatype Close = Normal | TryAgainLater | Silent

  function Usage(frames: seq<Frame>): Counts {
    if frames == [] then ZERO
    else
      var before, f := Usage(frames[..|frames| - 1]), frames[|frames| - 1];
      if f.text then Plus(before, f.usage) else before
  }

  predicate EndsTurn(f: Frame) { f.text && f.terminal }

  /** The session cut after each terminal event. */
  function Turns(frames: seq<Frame>): seq<seq<Frame>> {
    if frames == [] then []
    else
      var before, f := frames[..|frames| - 1], frames[|frames| - 1];
      if EndsTurn(f) then Turns(before) + [Open(before) + [f]] else Turns(before)
  }

  /** The frames since the last terminal event. */
  function Open(frames: seq<Frame>): seq<Frame> {
    if frames == [] || EndsTurn(frames[|frames| - 1]) then []
    else Open(frames[..|frames| - 1]) + [frames[|frames| - 1]]
  }

  function TurnUsage(turn: seq<Frame>): Counts {
    Usage(turn).(requests := 1)
  }

  datatype Axis = Input | Output | CacheCreate | CacheRead | ImageText | ImageInput | ImageOutput

  function Reading(c: Counts, axis: Axis): int {
    match axis
    case Input => c.input
    case Output => c.output
    case CacheCreate => c.cacheCreate
    case CacheRead => c.cacheRead
    case ImageText => c.imageText
    case ImageInput => c.imageInput
    case ImageOutput => c.imageOutput
  }

  /** The plain sum of what the inspected frames report on one axis. */
  function Reported(frames: seq<Frame>, axis: Axis): int {
    if frames == [] then 0
    else
      var f := frames[|frames| - 1];
      Reported(frames[..|frames| - 1], axis) + if f.text then Reading(f.usage, axis) else 0
  }

  /** c is, axis by axis, what the frames report. */
  predicate AddsUp(c: Counts, frames: seq<Frame>) {
    && c.input == Reported(frames, Input) && c.output == Reported(frames, Output)
    && c.cacheCreate == Reported(frames, CacheCreate) && c.cacheRead == Reported(frames, CacheRead)
    && c.imageText == Reported(frames, ImageText)
    && c.imageInput == Reported(frames, ImageInput) && c.imageOutput == Reported(frames, ImageOutput)
  }

  lemma {:induction false} UsageAddsUp(frames: seq<Frame>)
    ensures AddsUp(Usage(frames), frames)
  {
    if frames != [] {
      UsageAddsUp(frames[..|frames| - 1]);
    }
  }

  /** A turn ends at its only terminal event, and the open rest has none. */
  lemma {:induction false} TurnsEndAtTerminal(frames: seq<Frame>, k: nat)
    requires k < |Turns(frames)|
    ensures var turn := Turns(frames)[k];
            && turn != [] && turn[|turn| - 1].text && turn[|turn| - 1].terminal
            && forall i :: 0 <= i < |turn| - 1 ==> !(turn[i].text && turn[i].terminal)
  {
    var before, f := frames[..|frames| - 1], frames[|frames| - 1];
    OpenHasNone(before);
    if k < |Turns(before)| {
      TurnsEndAtTerminal(before, k);
    }
  }

  lemma {:induction false} OpenHasNone(frames: seq<Frame>)
    ensures forall i :: 0 <= i < |Open(frames)| ==> !(Open(frames)[i].text && Open(frames)[i].terminal)
  {
    if frames != [] && !EndsTurn(frames[|frames| - 1]) {
      OpenHasNone(frames[..|frames| - 1]);
    }
  }

  lemma {:induction false} UsageAppend(a: seq<Frame>, b: seq<Frame>)
    ensures Usage(a + b) == Plus(Usage(a), Usage(b))
  {
    if b == [] {
      assert a + b == a;
    } else {
      assert (a + b)[..|a + b| - 1] == a + b[..|b| - 1];
      UsageAppend(a, b[..|b| - 1]);
    }
  }

  /** The turns and the open rest are the session, in order. */
  lemma {:induction false} TurnsPartition(frames: seq<Frame>)
    ensures Flatten(Turns(frames)) + Open(frames) == frames
  {
    if frames != [] {
      var before, f := frames[..|frames| - 1], frames[|frames| - 1];
      TurnsPartition(before);
      assert frames == before + [f];
      if EndsTurn(f) {
        FlattenAppend(Turns(before), Open(before) + [f]);
        assert Flatten(Turns(before)) + (Open(before) + [f]) == before + [f];
      } else {
        assert Flatten(Turns(before)) + (Open(before) + [f]) == before + [f];
      }
    }
  }

  predicate HasText(frames: seq<Frame>) {
    exists f :: f in frames && f.text
  }

  lemma SessionSnoc(frames: seq<Frame>, f: Frame)
    ensures Usage(frames + [f]) == if f.text then Plus(Usage(frames), f.usage) else Usage(frames)
    ensures Turns(frames + [f]) == if EndsTurn(f) then Turns(frames) + [Open(frames) + [f]] else Turns(frames)
    ensures Open(frames + [f]) == if EndsTurn(f) then [] else Open(frames) + [f]
    ensures Usage(Open(frames) + [f]) == if f.text then Plus(Usage(Open(frames)), f.usage) else Usage(Open(frames))
    ensures HasText(Open(frames + [f])) <==> !EndsTurn(f) && (HasText(Open(frames)) || f.text)
  {
    assert (frames + [f])[..|frames|] == frames;
    assert (Open(frames) + [f])[..|Open(frames)|] == Open(frames);
    assert forall x :: x in Open(frames) + [f] <==> x in Open(frames) || x == f;
  }

  lemma NothingYet()
    ensures Usage([]) == ZERO && Turns([]) == [] && Open([]) == [] && !HasText([])
  {
  }

  /** A frame the client should have got and could not be sent. */
  predicate Unwritable(f: Frame) {
    !f.delivered && !(f.text && f.dropped)
  }

  /** The upstream-to-client loop, over the frames upstream sends before the read fails
      (cleanly or not) or the client goes away. */
  method Pump(frames: seq<Frame>, cleanClose: bool)
    returns (counts: Counts, bills: seq<Counts>, read: nat, close: Close)
    ensures read <= |frames|
    ensures forall k :: 0 <= k < read - 1 ==> frames[k].delivered || (frames[k].text && frames[k].dropped)
    ensures close.Silent? <==> read > 0 && !frames[read - 1].delivered && !(frames[read - 1].text && frames[read - 1].dropped)
    ensures !close.Silent? ==> read == |frames|
    ensures close.Normal? ==> cleanClose && forall f :: f in Open(frames) ==> !f.text
    ensures close.TryAgainLater? ==> !cleanClose || exists f :: f in Open(frames) && f.text
    ensures |bills| == |Turns(frames[..read])|
    ensures forall k :: 0 <= k < |bills| ==> bills[k] == TurnUsage(Turns(frames[..read])[k])
    ensures forall k :: 0 <= k < |bills| ==> AddsUp(bills[k], Turns(frames[..read])[k]) && bills[k].requests == 1
    ensures counts == Usage(frames[..read]).(requests := Usage(frames[..read]).requests + |bills|)
    ensures AddsUp(counts, frames[..read])
  {
    hide Usage, Turns, Open, HasText;
    NothingYet();
    counts, bills, read := ZERO, [], 0;
    var billed, midTurn := ZERO, false;
    while read < |frames|
      invariant read <= |frames|
      invariant forall k :: 0 <= k < read ==> !Unwritable(frames[k])
      invariant |bills| == |Turns(frames[..read])|
      invariant forall k :: 0 <= k < |bills| ==> bills[k] == TurnUsage(Turns(frames[..read])[k])
      invariant counts == Usage(frames[..read]).(requests := Usage(frames[..read]).requests + |bills|)
      invariant billed.requests == 0
      invariant TurnDelta(counts, billed) == TurnUsage(Open(frames[..read]))
      invariant midTurn == HasText(Open(frames[..read]))
    {
      var f := frames[read];
      SessionSnoc(frames[..read], f);
      assert frames[..read + 1] == frames[..read] + [f];
      read := read + 1;
      if f.text {
        counts := Plus(counts, f.usage);
        if f.terminal {
          counts := counts.(requests := counts.requests + 1);
          midTurn := false;
          bills := bills + [TurnDelta(counts, billed)];
          billed := counts.(requests := 0);
        } else {
          midTurn := true;
        }
        if f.dropped {
          continue;
        }
      }
      if !f.delivered {
        BillsAddUp(frames[..read], bills);
        UsageAddsUp(frames[..read]);
        return counts, bills, read, Silent;
      }
    }
    assert frames[..read] == frames;
    close := if cleanClose && !midTurn then Normal else TryAgainLater;
    BillsAddUp(frames, bills);
    UsageAddsUp(frames);
    HasTextMeans(Open(frames));
  }

  lemma HasTextMeans(frames: seq<Frame>)
    ensures HasText(frames) <==> exists f :: f in frames && f.text
  {
  }

  lemma BillsAddUp(frames: seq<Frame>, bills: seq<Counts>)
    requires |bills| == |Turns(frames)|
    requires forall k :: 0 <= k < |bills| ==> bills[k] == TurnUsage(Turns(frames)[k])
    ensures forall k :: 0 <= k < |bills| ==> AddsUp(bills[k], Turns(frames)[k]) && bills[k].requests == 1
  {
    forall k | 0 <= k < |bills|
      ensures AddsUp(bills[k], Turns(frames)[k]) && bills[k].requests == 1
    {
      UsageAddsUp(Turns(frames)[k]);
    }
  }

  function Sum(bills: seq<Counts>): Counts {
    if bills == [] then ZERO else Plus(Sum(bills[..|bills| - 1]), bills[|bills| - 1])
  }

  /** Conservation: the turns' bills add up, on every axis, to the usage of everything up
      to the last terminal event, with one request per turn. */
  lemma {:induction false} BillsConserve(frames: seq<Frame>, bills: seq<Counts>)
    requires |bills| == |Turns(frames)|
    requires forall k :: 0 <= k < |bills| ==> bills[k] == TurnUsage(Turns(frames)[k])
    ensures Plus(Sum(bills), Usage(Open(frames))).(requests := |bills|) == Usage(frames).(requests := |bills|)
    ensures Sum(bills).requests == |bills|
    ensures Sum(bills) == Usage(Flatten(Turns(frames))).(requests := |bills|)
    ensures AddsUp(Sum(bills), Flatten(Turns(frames)))
  {
    hide Usage, Turns, Open, Flatten, Sum, Reported;
    UsageAddsUp(Flatten(Turns(frames)));
    TurnsPartition(frames);
    SumOfTurns(Turns(frames), bills);
    UsageAppend(Flatten(Turns(frames)), Open(frames));
  }

  lemma {:induction false} SumOfTurns(turns: seq<seq<Frame>>, bills: seq<Counts>)
    requires |bills| == |turns|
    requires forall k :: 0 <= k < |bills| ==> bills[k] == TurnUsage(turns[k])
    ensures Sum(bills) == Usage(Flatten(turns)).(requests := |bills|)
  {
    hide Usage, Flatten;
    NothingYet();
    FlattenNothing<Frame>();
    if bills != [] {
      var n := |bills| - 1;
      SumOfTurns(turns[..n], bills[..n]);
      assert turns == turns[..n] + [turns[n]];
      FlattenAppend(turns[..n], turns[n]);
      UsageAppend(Flatten(turns[..n]), turns[n]);
    }
  }
}
