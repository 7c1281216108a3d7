/** The bounded settlement queue of a WebSocket session: the relay enqueues each turn's
    bill or, when the queue is full, settles it inline; one consumer drains the queue;
    closing the session drains the rest. A state machine over these steps. */
module SettlementQueue {
  import opened Common
  import opened TurnBilling

  const CAPACITY := 64

  /** The bill of one turn, numbered in the order the relay produced them. */
  datatype Bill = Bill(turn: nat, delta: Counts)

  datatype Session = Session(
    produced: seq<Bill>,       // handed over by the relay
    queue: seq<Bill>,          // waiting in the channel
    inline: Option<Bill>,      // being settled by the relay itself
    consuming: Option<Bill>,   // being settled by the consumer
    settled: seq<Bill>,        // charged
    closed: bool,              // the relay has returned and closed the channel
    joined: bool)              // the consumer has ended

  datatype Event = Produce(delta: Counts) | InlineDone | Take | Settle | Close | Join

  const START := Session([], [], None, None, [], false, false)

  predicate Enabled(s: Session, e: Event) {
    match e
    case Produce(_) => !s.closed && s.inline.None?
    case InlineDone => s.inline.Some?
    case Take => s.consuming.None? && s.queue != [] && !s.joined
    case Settle => s.consuming.Some?
    case Close => !s.closed && s.inline.None?
    case Join => s.closed && s.queue == [] && s.consuming.None? && !s.joined
  }

  function Apply(s: Session, e: Event): Session
    requires Enabled(s, e)
  {
    match e
    case Produce(delta) =>
      var b := Bill(|s.produced|, delta);
      var t := s.(produced := s.produced + [b]);
      if |s.queue| < CAPACITY then t.(queue := s.queue + [b]) else t.(inline := Some(b))
    case InlineDone => s.(inline := None, settled := s.settled + [s.inline.value])
    case Take => s.(consuming := Some(s.queue[0]), queue := s.queue[1..])
    case Settle => s.(consuming := None, settled := s.settled + [s.consuming.value])
    case Close => s.(closed := true)
    case Join => s.(joined := true)
  }

  predicate Run(run: seq<Session>, events: seq<Event>) {
    && |run| == |events| + 1
    && run[0] == START
    && forall i :: 0 <= i < |events| ==> Enabled(run[i], events[i]) && run[i + 1] == Apply(run[i], events[i])
  }

  function Held(o: Option<Bill>, b: Bill): nat {
    if o == Some(b) then 1 else 0
  }

  ghost predicate Inv(s: Session) {
    && Balanced(s)
    && (forall k :: 0 <= k < |s.produced| ==> s.produced[k].turn == k)
    && |s.queue| <= CAPACITY
    && (s.closed ==> s.inline.None?)
    && (s.joined ==> s.closed && s.queue == [] && s.consuming.None?)
  }

  /** How many times a bill occurs in the channel, in settlement and among the settled. */
  function Places(s: Session, b: Bill): nat {
    CountOf(s.settled, b) + CountOf(s.queue, b) + Held(s.inline, b) + Held(s.consuming, b)
  }

  /** Every bill handed over is in exactly one place. */
  ghost predicate Balanced(s: Session) {
    forall b :: Places(s, b) == CountOf(s.produced, b)
  }

  function CountOf(bills: seq<Bill>, b: Bill): nat { multiset(bills)[b] }

  lemma SnocCount(bills: seq<Bill>, last: Bill, b: Bill)
    ensures CountOf(bills + [last], b) == CountOf(bills, b) + if b == last then 1 else 0
  {
    assert multiset(bills + [last]) == multiset(bills) + multiset{last};
  }

  lemma HeadCount(bills: seq<Bill>, b: Bill)
    requires bills != []
    ensures CountOf(bills, b) == CountOf(bills[1..], b) + if b == bills[0] then 1 else 0
  {
    assert bills == [bills[0]] + bills[1..];
    assert multiset(bills) == multiset{bills[0]} + multiset(bills[1..]);
  }

  lemma PlacesStep(s: Session, e: Event, b: Bill)
    requires Enabled(s, e)
    requires Places(s, b) == CountOf(s.produced, b)
    ensures Places(Apply(s, e), b) == CountOf(Apply(s, e).produced, b)
  {
    hide CountOf;
    match e
    case Produce(delta) =>
      SnocCount(s.produced, Bill(|s.produced|, delta), b);
      SnocCount(s.queue, Bill(|s.produced|, delta), b);
    case InlineDone => SnocCount(s.settled, s.inline.value, b);
    case Take => HeadCount(s.queue, b);
    case Settle => SnocCount(s.settled, s.consuming.value, b);
    case Close =>
    case Join =>
  }

  lemma ApplyKeeps(s: Session, e: Event)
    requires Inv(s) && Enabled(s, e)
    ensures Inv(Apply(s, e))
  {
    forall b
      ensures Places(Apply(s, e), b) == CountOf(Apply(s, e).produced, b)
    {
      PlacesStep(s, e, b);
    }
    hide Places;
  }

  lemma {:induction false} RunKeeps(run: seq<Session>, events: seq<Event>, i: nat)
    requires Run(run, events) && i < |run|
    ensures Inv(run[i])
  {
    if i > 0 {
      RunKeeps(run, events, i - 1);
      ApplyKeeps(run[i - 1], events[i - 1]);
    }
  }

  function CountTurn(bills: seq<Bill>, turn: nat): nat {
    if bills == [] then 0
    else CountTurn(bills[..|bills| - 1], turn) + if bills[|bills| - 1].turn == turn then 1 else 0
  }

  function Deltas(bills: seq<Bill>): seq<Counts> {
    if bills == [] then [] else Deltas(bills[..|bills| - 1]) + [bills[|bills| - 1].delta]
  }

  /** The total charged. */
  function Charged(bills: seq<Bill>): Counts {
    if bills == [] then ZERO else Plus(Charged(bills[..|bills| - 1]), bills[|bills| - 1].delta)
  }

  lemma {:induction false} ChargedIsSum(bills: seq<Bill>)
    ensures Charged(bills) == Sum(Deltas(bills)) && |Deltas(bills)| == |bills|
  {
    if bills != [] {
      ChargedIsSum(bills[..|bills| - 1]);
      assert Deltas(bills)[..|bills| - 1] == Deltas(bills[..|bills| - 1]);
    }
  }

  function Drop(bills: seq<Bill>, i: nat): seq<Bill>
    requires i < |bills|
  {
    bills[..i] + bills[i + 1..]
  }

  lemma {:induction false} TakeOut(bills: seq<Bill>, i: nat, turn: nat)
    requires i < |bills|
    ensures Charged(bills) == Plus(Charged(Drop(bills, i)), bills[i].delta)
    ensures CountTurn(bills, turn) == CountTurn(Drop(bills, i), turn) + if bills[i].turn == turn then 1 else 0
  {
    var n, rest := |bills| - 1, Drop(bills, i);
    if i == n {
      assert rest == bills[..n];
    } else {
      TakeOut(bills[..n], i, turn);
      assert rest[..n - 1] == Drop(bills[..n], i);
      assert rest[n - 1] == bills[n];
    }
  }

  lemma DropMultiset(bills: seq<Bill>, i: nat)
    requires i < |bills|
    ensures multiset(bills) == multiset(Drop(bills, i)) + multiset{bills[i]}
  {
    assert bills == bills[..i] + [bills[i]] + bills[i + 1..];
  }

  /** The order of settlement does not matter to the total or to who was charged. */
  lemma {:induction false} OrderIrrelevant(a: seq<Bill>, b: seq<Bill>, turn: nat)
    requires multiset(a) == multiset(b)
    ensures Charged(a) == Charged(b) && CountTurn(a, turn) == CountTurn(b, turn)
    decreases |a|
  {
    if a == [] {
      assert |multiset(b)| == |b| == 0;
    } else {
      var n := |a| - 1;
      assert a[n] in multiset(b);
      var i :| 0 <= i < |b| && b[i] == a[n];
      hide Drop, Charged, CountTurn;
      TakeOut(b, i, turn);
      DropMultiset(b, i);
      TakeOut(a, n, turn);
      DropMultiset(a, n);
      assert multiset(Drop(a, n)) == multiset(b) - multiset{b[i]} == multiset(Drop(b, i));
      assert |Drop(a, n)| == |multiset(Drop(a, n))| < |multiset(a)| == |a|;
      OrderIrrelevant(Drop(a, n), Drop(b, i), turn);
    }
  }

  lemma {:induction false} NumberedOnce(bills: seq<Bill>, turn: nat)
    requires forall k :: 0 <= k < |bills| ==> bills[k].turn == k
    ensures CountTurn(bills, turn) == if turn < |bills| then 1 else 0
  {
    if bills != [] {
      NumberedOnce(bills[..|bills| - 1], turn);
    }
  }

  /** Under every interleaving, a session that has ended has settled each turn exactly
      once, and charged exactly what the turns add up to. */
  lemma SettledOnce(run: seq<Session>, events: seq<Event>, i: nat, turn: nat)
    requires Run(run, events) && i < |run| && run[i].joined
    ensures CountTurn(run[i].settled, turn) == if turn < |run[i].produced| then 1 else 0
    ensures Charged(run[i].settled) == Charged(run[i].produced)
  {
    RunKeeps(run, events, i);
    forall b
      ensures multiset(run[i].settled)[b] == multiset(run[i].produced)[b]
    {
      assert Places(run[i], b) == CountOf(run[i].produced, b);
    }
    assert multiset(run[i].settled) == multiset(run[i].produced);
    OrderIrrelevant(run[i].settled, run[i].produced, turn);
    NumberedOnce(run[i].produced, turn);
  }

  /** At no moment is a turn charged twice. */
  lemma NeverTwice(run: seq<Session>, events: seq<Event>, i: nat, turn: nat)
    requires Run(run, events) && i < |run|
    ensures CountTurn(run[i].settled, turn) <= 1
  {
    var s := run[i];
    RunKeeps(run, events, i);
    var rest := s.queue + Pending(s.inline) + Pending(s.consuming);
    forall b
      ensures multiset(s.settled + rest)[b] == multiset(s.produced)[b]
    {
      Everywhere(s, b);
    }
    assert multiset(s.settled + rest) == multiset(s.produced);
    OrderIrrelevant(s.settled + rest, s.produced, turn);
    NumberedOnce(s.produced, turn);
    CountAppend(s.settled, rest, turn);
  }

  function Pending(o: Option<Bill>): seq<Bill> {
    if o.Some? then [o.value] else []
  }

  lemma AppendCount(a: seq<Bill>, b: seq<Bill>, x: Bill)
    ensures CountOf(a + b, x) == CountOf(a, x) + CountOf(b, x)
  {
    assert multiset(a + b) == multiset(a) + multiset(b);
  }

  lemma Everywhere(s: Session, b: Bill)
    requires Balanced(s)
    ensures CountOf(s.settled + (s.queue + Pending(s.inline) + Pending(s.consuming)), b) == CountOf(s.produced, b)
  {
    AppendCount(s.settled, s.queue + Pending(s.inline) + Pending(s.consuming), b);
    AppendCount(s.queue + Pending(s.inline), Pending(s.consuming), b);
    AppendCount(s.queue, Pending(s.inline), b);
    assert Places(s, b) == CountOf(s.produced, b);
  }

  lemma {:induction false} CountAppend(a: seq<Bill>, b: seq<Bill>, turn: nat)
    ensures CountTurn(a + b, turn) == CountTurn(a, turn) + CountTurn(b, turn)
  {
    if b == [] {
      assert a + b == a;
    } else {
      assert (a + b)[..|a + b| - 1] == a + b[..|b| - 1];
      CountAppend(a, b[..|b| - 1], turn);
    }
  }

  /** End to end: if the relay hands over the pump's bills, the charges of an ended
      session are, on every axis, the usage up to its last terminal event. */
  lemma SessionChargesItsUsage(run: seq<Session>, events: seq<Event>, i: nat, frames: seq<Frame>)
    requires Run(run, events) && i < |run| && run[i].joined
    requires |run[i].produced| == |Turns(frames)|
    requires forall k :: 0 <= k < |run[i].produced| ==> run[i].produced[k].delta == TurnUsage(Turns(frames)[k])
    ensures Charged(run[i].settled) == Usage(Flatten(Turns(frames))).(requests := |Turns(frames)|)
    ensures AddsUp(Charged(run[i].settled), Flatten(Turns(frames)))
  {
    var produced := run[i].produced;
    SettledOnce(run, events, i, 0);
    ChargedIsSum(produced);
    forall k | 0 <= k < |produced|
      ensures Deltas(produced)[k] == TurnUsage(Turns(frames)[k])
    {
      DeltaAt(produced, k);
    }
    BillsConserve(frames, Deltas(produced));
  }

  lemma {:induction false} DeltaAt(bills: seq<Bill>, k: nat)
    requires k < |bills|
    ensures |Deltas(bills)| == |bills| && Deltas(bills)[k] == bills[k].delta
  {
    var n := |bills| - 1;
    if n > 0 {
      DeltaAt(bills[..n], if k < n then k else 0);
    }
  }

  /** Where a bill goes: into the channel while there is room, and otherwise to the relay
      itself, which goes on only when it has settled it. Nothing is dropped. */
  lemma BilledAtOnce(s: Session, delta: Counts)
    requires Enabled(s, Produce(delta))
    ensures var t, b := Apply(s, Produce(delta)), Bill(|s.produced|, delta);
            && t.produced == s.produced + [b]
            && (|s.queue| < 64 ==> t.queue == s.queue + [b] && t.inline.None?)
            && (|s.queue| >= 64 ==> t.queue == s.queue && t.inline == Some(b) && Enabled(t, InlineDone)
                                    && forall d :: !Enabled(t, Produce(d)))
  {
  }

  /** Steps left until a closed session has ended. */
  function Remaining(s: Session): nat {
    2 * |s.queue| + (if s.consuming.Some? then 1 else 0) + if s.joined then 0 else 1
  }

  /** A closed session always ends: some step is possible until it has, and every
      possible one brings the end closer. */
  lemma CloseDrains(s: Session)
    requires Inv(s) && s.closed && !s.joined
    ensures Enabled(s, Take) || Enabled(s, Settle) || Enabled(s, Join)
    ensures forall e :: Enabled(s, e) ==> Remaining(Apply(s, e)) < Remaining(s)
  {
  }
}
