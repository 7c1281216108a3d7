/** The per-token limit on order creation: a sliding one-hour window of at most ten
    accepted creations. A caller reads the clock before it waits for the lock, so calls need
    not arrive in the order of their stamps. Times are in nanoseconds. */
module CreationLimiter {
  import opened Common

  type Token = string

  const SECOND := 1_000_000_000
  const HOUR := 3600 * SECOND
  const MAX_PER_HOUR := 10

  /** The stamps newer than the cutoff, in order. */
  function After(stamps: seq<int>, cutoff: int): seq<int> {
    if stamps == [] then []
    else
      var last := stamps[|stamps| - 1];
      After(stamps[..|stamps| - 1], cutoff) + if last > cutoff then [last] else []
  }

  predicate Ascending(stamps: seq<int>) {
    forall i, j :: 0 <= i < j < |stamps| ==> stamps[i] <= stamps[j]
  }

  /** How many of the stamps lie in [from, from + length). */
  function InWindow(stamps: seq<int>, from: int, length: int): nat {
    if stamps == [] then 0
    else
      var last := stamps[|stamps| - 1];
      InWindow(stamps[..|stamps| - 1], from, length) + if from <= last < from + length then 1 else 0
  }

  predicate UpTo(stamps: seq<int>, now: int) {
    forall i :: 0 <= i < |stamps| ==> stamps[i] <= now
  }

  /** No one-hour window holds more than the limit. */
  ghost predicate Limited(accepted: seq<int>) {
    forall from :: InWindow(accepted, from, HOUR) <= MAX_PER_HOUR
  }

  /** The hint given to a refused caller: whole seconds until the oldest stamp leaves the
      window, and at least one. */
  function RetryHint(oldest: int, now: int): int
    requires oldest + HOUR >= now
  {
    var seconds := (oldest + HOUR - now) / SECOND;
    if seconds < 1 then 1 else seconds
  }

  datatype Call = Call(token: Token, now: int)

  // ---- What is stored, and what was accepted ----

  /** The stamps stored for a token after some calls, in the order they took the lock. */
  function Held(calls: seq<Call>, token: Token): seq<int> {
    if calls == [] then []
    else
      var before, c := calls[..|calls| - 1], calls[|calls| - 1];
      if c.token != token then Held(before, token)
      else After(Held(before, token), c.now - HOUR) + if Admits(before, c) then [c.now] else []
  }

  /** The decision on a call. */
  predicate Admits(before: seq<Call>, c: Call) {
    |After(Held(before, c.token), c.now - HOUR)| < MAX_PER_HOUR
  }

  /** Every creation ever accepted for a token. */
  function Accepted(calls: seq<Call>, token: Token): seq<int> {
    if calls == [] then []
    else
      var before, c := calls[..|calls| - 1], calls[|calls| - 1];
      Accepted(before, token) + if c.token == token && Admits(before, c) then [c.now] else []
  }

  /** The newest stamp handled for a token. */
  function Latest(calls: seq<Call>, token: Token): Option<int> {
    if calls == [] then None
    else
      var before, c := Latest(calls[..|calls| - 1], token), calls[|calls| - 1];
      if c.token == token && (before.None? || c.now > before.value) then Some(c.now) else before
  }

  class Limiter {
    var createdAt: map<Token, seq<int>>
    ghost var calls: seq<Call>   // every call so far

    ghost predicate Valid()
      reads this
    {
      forall token :: (if token in createdAt then createdAt[token] else []) == Held(calls, token)
    }

    constructor ()
      ensures Valid() && calls == []
    {
      createdAt, calls := map[], [];
    }

    /** Accepts a creation at time now, or refuses it with a hint. */
    method AllowCreate(token: Token, now: int) returns (ok: bool, retry: int)
      requires Valid()
      modifies this
      ensures Valid() && calls == old(calls) + [Call(token, now)]
      ensures ok <==> Admits(old(calls), Call(token, now))
      ensures !ok ==> Refusal(Held(old(calls), token), now, retry)
      ensures ok ==> retry == 0
    {
      hide After, Held, Admits;
      var stamps := if token in createdAt then createdAt[token] else [];
      var kept := Keep(stamps, now - HOUR);
      ghost var c := Call(token, now);
      AdmitsMeans(calls, c);
      forall other
        ensures Held(calls + [c], other) == if other != token then Held(calls, other) else kept + if Admits(calls, c) then [now] else []
      {
        CallSnoc(calls, c, other);
      }
      if |kept| >= MAX_PER_HOUR {
        HeldIsShort(calls, token, now - HOUR);
        AfterIsNewer(stamps, now - HOUR, 0);
        retry := (kept[0] + HOUR - now) / SECOND;
        if retry < 1 {
          retry := 1;
        }
        createdAt, calls := createdAt[token := kept], calls + [c];
        assert kept + [] == kept;
        return false, retry;
      }
      createdAt, calls := createdAt[token := kept + [now]], calls + [c];
      return true, 0;
    }
  }

  lemma AdmitsMeans(before: seq<Call>, c: Call)
    ensures Admits(before, c) <==> |After(Held(before, c.token), c.now - HOUR)| < MAX_PER_HOUR
  {
  }

  /** What one more call changes. */
  lemma CallSnoc(calls: seq<Call>, c: Call, token: Token)
    ensures Held(calls + [c], token) ==
            if c.token != token then Held(calls, token)
            else After(Held(calls, token), c.now - HOUR) + if Admits(calls, c) then [c.now] else []
    ensures Accepted(calls + [c], token) == Accepted(calls, token) + if c.token == token && Admits(calls, c) then [c.now] else []
    ensures var was := Latest(calls, token);
            Latest(calls + [c], token) == if c.token == token && (was.None? || c.now > was.value) then Some(c.now) else was
  {
    hide Admits;
    assert (calls + [c])[..|calls|] == calls;
  }

  lemma {:induction false} AfterShrinks(stamps: seq<int>, cutoff: int)
    ensures |After(stamps, cutoff)| <= |stamps|
  {
    if stamps != [] {
      AfterShrinks(stamps[..|stamps| - 1], cutoff);
    }
  }

  /** No more than the limit is ever stored. */
  lemma {:induction false} HeldIsShort(calls: seq<Call>, token: Token, cutoff: int)
    ensures |After(Held(calls, token), cutoff)| <= |Held(calls, token)| <= MAX_PER_HOUR
  {
    AfterShrinks(Held(calls, token), cutoff);
    if calls != [] {
      var before, c := calls[..|calls| - 1], calls[|calls| - 1];
      HeldIsShort(before, token, c.now - HOUR);
    }
  }

  /** The source's in-place filter. */
  method Keep(stamps: seq<int>, cutoff: int) returns (kept: seq<int>)
    ensures kept == After(stamps, cutoff)
  {
    kept := [];
    for i := 0 to |stamps|
      invariant kept == After(stamps[..i], cutoff)
    {
      assert stamps[..i + 1][..i] == stamps[..i];
      if stamps[i] > cutoff {
        kept := kept + [stamps[i]];
      }
    }
    assert stamps[..|stamps|] == stamps;
  }

  /** A full window: its ten stamps, and the hint computed from the oldest. */
  ghost predicate Refusal(accepted: seq<int>, now: int, retry: int) {
    var window := After(accepted, now - HOUR);
    && |window| == MAX_PER_HOUR
    && window[0] + HOUR > now
    && retry == RetryHint(window[0], now)
  }

  lemma {:induction false} AfterTwice(stamps: seq<int>, earlier: int, cutoff: int)
    requires earlier <= cutoff
    ensures After(After(stamps, earlier), cutoff) == After(stamps, cutoff)
  {
    if stamps != [] {
      var before, last := stamps[..|stamps| - 1], stamps[|stamps| - 1];
      AfterTwice(before, earlier, cutoff);
      assert (After(before, earlier) + [last])[..|After(before, earlier)|] == After(before, earlier);
      assert After(before, earlier) + [] == After(before, earlier);
    }
  }

  lemma {:induction false} AfterIsNewer(stamps: seq<int>, cutoff: int, i: nat)
    requires i < |After(stamps, cutoff)|
    ensures After(stamps, cutoff)[i] > cutoff
  {
    var n := |stamps| - 1;
    if i < |After(stamps[..n], cutoff)| {
      AfterIsNewer(stamps[..n], cutoff, i);
    }
  }

  lemma {:induction false} LaterWindowIsSmaller(stamps: seq<int>, from: int, cutoff: int)
    requires cutoff < from
    ensures InWindow(stamps, from, HOUR) <= |After(stamps, cutoff)|
  {
    if stamps != [] {
      LaterWindowIsSmaller(stamps[..|stamps| - 1], from, cutoff);
    }
  }

  // ---- Does the limit hold? ----

  /** The store accepts what the rule, remembering everything, would refuse. */
  predicate WronglyAdmits(before: seq<Call>, c: Call) {
    Admits(before, c) && |After(Accepted(before, c.token), c.now - HOUR)| >= MAX_PER_HOUR
  }

  lemma AcceptKeeps(stamps: seq<int>, now: int)
    requires Limited(stamps) && |After(stamps, now - HOUR)| < MAX_PER_HOUR
    ensures Limited(stamps + [now])
  {
    var more := stamps + [now];
    assert more[..|stamps|] == stamps;
    forall from
      ensures InWindow(more, from, HOUR) <= MAX_PER_HOUR
    {
      if from <= now < from + HOUR {
        LaterWindowIsSmaller(stamps, from, now - HOUR);
      }
    }
  }

  /** The creations the rule itself accepts for a token, remembering everything. */
  function Replay(calls: seq<Call>, token: Token): seq<int> {
    if calls == [] then []
    else
      var before, c := Replay(calls[..|calls| - 1], token), calls[|calls| - 1];
      if c.token == token && |After(before, c.now - HOUR)| < MAX_PER_HOUR then before + [c.now] else before
  }

  /** The rule keeps the limit in whatever order calls arrive. */
  lemma {:induction false} ReplayIsLimited(calls: seq<Call>, token: Token)
    ensures Limited(Replay(calls, token))
  {
    if calls == [] {
      NothingLimited();
    } else {
      ReplayIsLimited(calls[..|calls| - 1], token);
      if calls[|calls| - 1].token == token {
        var before := Replay(calls[..|calls| - 1], token);
        if |After(before, calls[|calls| - 1].now - HOUR)| < MAX_PER_HOUR {
          AcceptKeeps(before, calls[|calls| - 1].now);
        }
      }
    }
  }

  /** Less than an hour passes between reading the clock and taking the lock, as far as
      other stamps of the token can tell. */
  predicate Prompt(calls: seq<Call>, token: Token) {
    forall i, j :: 0 <= i < j < |calls| && calls[i].token == token == calls[j].token ==> calls[j].now > calls[i].now - HOUR
  }

  lemma {:induction false} LatestMeans(calls: seq<Call>, token: Token)
    ensures Latest(calls, token).None? <==> forall i :: 0 <= i < |calls| ==> calls[i].token != token
    ensures Latest(calls, token).Some? ==>
              && (exists i :: 0 <= i < |calls| && calls[i].token == token && calls[i].now == Latest(calls, token).value)
              && forall i :: 0 <= i < |calls| && calls[i].token == token ==> calls[i].now <= Latest(calls, token).value
  {
    if calls != [] {
      LatestMeans(calls[..|calls| - 1], token);
    }
  }

  lemma Prompts(calls: seq<Call>, c: Call)
    requires Prompt(calls + [c], c.token)
    ensures Latest(calls, c.token).Some? ==> c.now > Latest(calls, c.token).value - HOUR
  {
    LatestMeans(calls, c.token);
    if Latest(calls, c.token).Some? {
      var i :| 0 <= i < |calls| && calls[i].token == c.token && calls[i].now == Latest(calls, c.token).value;
      assert (calls + [c])[i] == calls[i] && (calls + [c])[|calls|] == c;
    }
  }

  function Newest(latest: Option<int>, now: int): int {
    if latest.None? || now > latest.value then now else latest.value
  }

  lemma PromptBefore(before: seq<Call>, c: Call, token: Token)
    requires Prompt(before + [c], token)
    ensures Prompt(before, token)
  {
    assert forall i :: 0 <= i < |before| ==> before[i] == (before + [c])[i];
  }

  lemma NothingHeld(token: Token)
    ensures Held([], token) == Accepted([], token) == Replay([], token) == [] && Latest([], token).None?
  {
  }

  /** The stored stamps of one token: those accepted within an hour of the newest handled. */
  ghost predicate Filtered(held: seq<int>, all: seq<int>, latest: Option<int>) {
    if latest.None? then held == all == [] else held == After(all, latest.value - HOUR)
  }

  /** What is stored is what was accepted within an hour of the newest stamp handled. */
  lemma {:induction false} HeldIs(calls: seq<Call>, token: Token)
    requires Prompt(calls, token)
    ensures Filtered(Held(calls, token), Accepted(calls, token), Latest(calls, token))
  {
    hide Held, Accepted, Latest, Prompt, After, Admits;
    NothingHeld(token);
    if calls != [] {
      var before, c := calls[..|calls| - 1], calls[|calls| - 1];
      assert calls == before + [c];
      PromptBefore(before, c, token);
      HeldIs(before, token);
      CallSnoc(before, c, token);
      if c.token == token {
        Prompts(before, c);
        FilterStep(Held(before, token), Accepted(before, token), Latest(before, token), c.now);
      } else {
        assert Accepted(before, token) + [] == Accepted(before, token);
      }
    }
  }

  lemma FilterStep(held: seq<int>, all: seq<int>, latest: Option<int>, now: int)
    requires Filtered(held, all, latest) && (latest.Some? ==> now > latest.value - HOUR)
    ensures var newest := Newest(latest, now);
            && After(held, now - HOUR) == After(all, newest - HOUR)
            && After(held, now - HOUR) + [] == After(all + [], newest - HOUR)
            && After(held, now - HOUR) + [now] == After(all + [now], newest - HOUR)
  {
    hide After;
    if latest.Some? {
      AfterBoth(all, latest.value - HOUR, now - HOUR);
    }
    assert all + [] == all;
    AfterSnoc(all, now, Newest(latest, now) - HOUR);
  }

  lemma AfterSnoc(stamps: seq<int>, now: int, cutoff: int)
    ensures After(stamps + [now], cutoff) == After(stamps, cutoff) + if now > cutoff then [now] else []
    ensures After(stamps, cutoff) + [] == After(stamps, cutoff)
    ensures After([], cutoff) == []
  {
    assert (stamps + [now])[..|stamps|] == stamps;
  }

  lemma {:induction false} AfterBoth(stamps: seq<int>, a: int, b: int)
    ensures After(After(stamps, a), b) == After(stamps, if a > b then a else b)
  {
    if a <= b {
      AfterTwice(stamps, a, b);
    } else {
      AfterTwice(stamps, a, a);
      AfterEarlier(stamps, a, b);
    }
  }

  lemma {:induction false} AfterEarlier(stamps: seq<int>, a: int, b: int)
    requires b <= a
    ensures After(After(stamps, a), b) == After(stamps, a)
  {
    if stamps != [] {
      var before, last := stamps[..|stamps| - 1], stamps[|stamps| - 1];
      AfterEarlier(before, a, b);
      AfterSnoc(After(before, a), last, b);
    }
  }

  /** Exactly when a call is wrongly accepted: its stamp is older than the newest one
      handled, its own hour is full, and so much of it has been forgotten that the hour of
      the newest is not. And no call is wrongly refused. */
  lemma WronglyAdmitsExactly(calls: seq<Call>, c: Call)
    requires Prompt(calls + [c], c.token)
    ensures var all, latest := Accepted(calls, c.token), Latest(calls, c.token);
            WronglyAdmits(calls, c) <==>
            && latest.Some? && c.now < latest.value
            && |After(all, c.now - HOUR)| >= MAX_PER_HOUR
            && |After(all, latest.value - HOUR)| < MAX_PER_HOUR
    ensures !Admits(calls, c) ==> |After(Accepted(calls, c.token), c.now - HOUR)| >= MAX_PER_HOUR
  {
    hide Held, Accepted, Latest, Prompt, After, Admits;
    var all, latest := Accepted(calls, c.token), Latest(calls, c.token);
    PromptBefore(calls, c, c.token);
    HeldIs(calls, c.token);
    Prompts(calls, c);
    FilterStep(Held(calls, c.token), all, latest, c.now);
    AdmitsMeans(calls, c);
    if latest.Some? && c.now < latest.value {
      AfterBoth(all, c.now - HOUR, latest.value - HOUR);
      AfterShrinks(After(all, c.now - HOUR), latest.value - HOUR);
    }
    if latest.None? {
      NothingAfter(c.now - HOUR);
    }
  }

  /** As long as no call is wrongly accepted, the store decides as the rule, and no one-hour
      window of a token holds more than ten accepted creations. */
  lemma {:induction false} LimitHolds(calls: seq<Call>, token: Token)
    requires Prompt(calls, token)
    requires forall i :: 0 <= i < |calls| && calls[i].token == token ==> !WronglyAdmits(calls[..i], calls[i])
    ensures Accepted(calls, token) == Replay(calls, token) && Limited(Accepted(calls, token))
  {
    ReplayIsLimited(calls, token);
    hide Held, Accepted, Replay, Prompt, After, Admits, Limited;
    NothingHeld(token);
    if calls != [] {
      var before, c := calls[..|calls| - 1], calls[|calls| - 1];
      assert calls == before + [c];
      PromptBefore(before, c, token);
      forall i | 0 <= i < |before| && before[i].token == token
        ensures !WronglyAdmits(before[..i], before[i])
      {
        assert before[..i] == calls[..i] && before[i] == calls[i];
      }
      LimitHolds(before, token);
      CallSnoc(before, c, token);
      ReplaySnoc(before, c, token);
      if c.token == token {
        WronglyAdmitsExactly(before, c);
        assert !WronglyAdmits(before, c);
        assert Accepted(before, token) + [] == Accepted(before, token);
      } else {
        assert Accepted(before, token) + [] == Accepted(before, token);
      }
    }
  }

  lemma ReplaySnoc(calls: seq<Call>, c: Call, token: Token)
    ensures var before := Replay(calls, token);
            Replay(calls + [c], token) ==
            if c.token == token && |After(before, c.now - HOUR)| < MAX_PER_HOUR then before + [c.now] else before
  {
    assert (calls + [c])[..|calls|] == calls;
  }

  predicate InClockOrder(calls: seq<Call>) {
    forall i, j :: 0 <= i < j < |calls| ==> calls[i].now <= calls[j].now
  }

  /** Calls that arrive in the order of their stamps never wrong the limit. */
  lemma OrderKeepsLimit(calls: seq<Call>, token: Token)
    requires InClockOrder(calls)
    ensures Accepted(calls, token) == Replay(calls, token) && Limited(Accepted(calls, token))
  {
    forall i | 0 <= i < |calls| && calls[i].token == token
      ensures !WronglyAdmits(calls[..i], calls[i])
    {
      var before := calls[..i];
      LatestMeans(before, token);
      assert Prompt(before + [calls[i]], token) by {
        assert before + [calls[i]] == calls[..i + 1];
      }
      WronglyAdmitsExactly(before, calls[i]);
      hide Latest, WronglyAdmits;
    }
    LimitHolds(calls, token);
  }

  /** The limiter over any calls: it accepts exactly the creations accounted for, and keeps
      the limit if they arrive in the order of their stamps. */
  method Serve(calls: seq<Call>, token: Token) returns (accepted: seq<int>)
    ensures accepted == Accepted(calls, token)
    ensures InClockOrder(calls) ==> accepted == Replay(calls, token) && Limited(accepted)
  {
    hide Held, Accepted, Admits, Limited, Replay;
    NothingAccepted(token);
    accepted := [];
    var limiter := new Limiter();
    for i := 0 to |calls|
      invariant fresh(limiter) && limiter.Valid() && limiter.calls == calls[..i]
      invariant accepted == Accepted(calls[..i], token)
    {
      assert calls[..i + 1] == calls[..i] + [calls[i]];
      CallSnoc(calls[..i], calls[i], token);
      var ok, retry := limiter.AllowCreate(calls[i].token, calls[i].now);
      if ok && calls[i].token == token {
        accepted := accepted + [calls[i].now];
      }
    }
    assert calls[..|calls|] == calls;
    if InClockOrder(calls) {
      OrderKeepsLimit(calls, token);
    }
  }

  lemma NothingAccepted(token: Token)
    ensures Accepted([], token) == []
  {
  }

  /** Ten creations in the first nanoseconds, a caller stamped just after their hour, and
      one stamped just before its end that took the lock last. */
  function Overtaken(token: Token): seq<Call> {
    Burst(token, 10) + [Call(token, HOUR + 1), Call(token, HOUR - 1)]
  }

  function Burst(token: Token, n: nat): seq<Call> {
    seq(n, i requires 0 <= i => Call(token, i))
  }

  lemma BurstSnoc(token: Token, n: nat)
    requires n > 0
    ensures Burst(token, n) == Burst(token, n - 1) + [Call(token, n - 1)] && Stamps(n) == Stamps(n - 1) + [n - 1]
    ensures var was := Stamps(n - 1); |was| == n - 1 && forall i :: 0 <= i < |was| ==> was[i] >= 0
    ensures Burst(token, 0) == [] && Stamps(0) == []
  {
  }

  lemma {:induction false} BurstIsAccepted(token: Token, n: nat)
    requires n <= MAX_PER_HOUR
    ensures Held(Burst(token, n), token) == Accepted(Burst(token, n), token) == Stamps(n)
  {
    hide Burst, Stamps, Held, Accepted, Admits, After;
    BurstSnoc(token, if n == 0 then 1 else n);
    NothingHeld(token);
    if n > 0 {
      BurstIsAccepted(token, n - 1);
      AdmitsWhole(Burst(token, n - 1), Call(token, n - 1));
    }
  }

  function Stamps(n: nat): seq<int> {
    seq(n, i => i)
  }

  /** What is left of the burst an hour after its second creation. */
  function Left(): (left: seq<int>)
    ensures |left| == 8 && forall i :: 0 <= i < |left| ==> left[i] > 1
  {
    [2, 3, 4, 5, 6, 7, 8, 9]
  }

  lemma AdmitsWhole(calls: seq<Call>, c: Call)
    requires var held := Held(calls, c.token); |held| < MAX_PER_HOUR && forall i :: 0 <= i < |held| ==> held[i] > c.now - HOUR
    ensures Held(calls + [c], c.token) == Held(calls, c.token) + [c.now]
    ensures Accepted(calls + [c], c.token) == Accepted(calls, c.token) + [c.now]
  {
    hide Held, Accepted, Admits, After;
    AllKept(Held(calls, c.token), c.now - HOUR);
    AdmitsMeans(calls, c);
    CallSnoc(calls, c, c.token);
  }

  lemma AheadIsAdmitted(token: Token)
    ensures var calls := Burst(token, 10) + [Call(token, HOUR + 1)];
            Held(calls, token) == Left() + [HOUR + 1] && Accepted(calls, token) == Stamps(10) + [HOUR + 1]
  {
    assert Stamps(10) == [0, 1] + Left();
    BurstIsAccepted(token, 10);
    FirstTwoDrop(Left());
    hide *;
    CallSnoc(Burst(token, 10), Call(token, HOUR + 1), token);
    AdmitsMeans(Burst(token, 10), Call(token, HOUR + 1));
  }

  lemma BehindIsAdmitted(token: Token)
    ensures Accepted(Overtaken(token), token) == Stamps(10) + [HOUR + 1] + [HOUR - 1]
  {
    var calls, behind := Burst(token, 10) + [Call(token, HOUR + 1)], Call(token, HOUR - 1);
    assert Overtaken(token) == calls + [behind] by {
      hide Burst;
    }
    hide *;
    AheadIsAdmitted(token);
    AdmitsWhole(calls, behind);
  }

  /** The limit fails for a run out of order: eleven creations lie in the first hour. */
  lemma OvertakenBreaksLimit(token: Token)
    ensures Prompt(Overtaken(token), token)
    ensures InWindow(Accepted(Overtaken(token), token), 0, HOUR) == MAX_PER_HOUR + 1
  {
    assert Prompt(Overtaken(token), token);
    BehindIsAdmitted(token);
    hide *;
    AllInWindow(10);
    InWindowSnoc(Stamps(10), HOUR + 1);
    InWindowSnoc(Stamps(10) + [HOUR + 1], HOUR - 1);
  }

  lemma {:induction false} FirstTwoDrop(rest: seq<int>)
    requires forall i :: 0 <= i < |rest| ==> rest[i] > 1
    ensures After([0, 1] + rest, 1) == rest
  {
    if rest == [] {
      assert [0, 1] + rest == [0] + [1] && [] + [0] == [0];
      AfterSnoc([0], 1, 1);
      AfterSnoc([], 0, 1);
    } else {
      var before, last := rest[..|rest| - 1], rest[|rest| - 1];
      FirstTwoDrop(before);
      assert [0, 1] + rest == ([0, 1] + before) + [last];
      AfterSnoc([0, 1] + before, last, 1);
    }
  }

  lemma InWindowSnoc(stamps: seq<int>, now: int)
    ensures InWindow(stamps + [now], 0, HOUR) == InWindow(stamps, 0, HOUR) + if 0 <= now < HOUR then 1 else 0
  {
    assert (stamps + [now])[..|stamps|] == stamps;
  }

  lemma {:induction false} AllInWindow(n: nat)
    requires n <= MAX_PER_HOUR
    ensures InWindow(Stamps(n), 0, HOUR) == n
  {
    if n > 0 {
      AllInWindow(n - 1);
      assert Stamps(n) == Stamps(n - 1) + [n - 1];
      InWindowSnoc(Stamps(n - 1), n - 1);
    }
  }

  // ---- The hint ----

  lemma {:induction false} OldestDrops(stamps: seq<int>, cutoff: int)
    requires stamps != [] && stamps[0] <= cutoff
    ensures |After(stamps, cutoff)| < |stamps|
  {
    if |stamps| > 1 {
      OldestDrops(stamps[..|stamps| - 1], cutoff);
    }
  }

  /** A refused caller that waits the hint and one second more finds room, if nothing else
      is stored meanwhile. */
  lemma AdmittedAfterHint(stored: seq<int>, now: int, retry: int, later: int)
    requires Refusal(stored, now, retry) && later >= now + (retry + 1) * SECOND
    ensures |After(stored, later - HOUR)| < MAX_PER_HOUR
  {
    var window := After(stored, now - HOUR);
    AfterTwice(stored, now - HOUR, later - HOUR);
    OldestDrops(window, later - HOUR);
  }

  /** So it is admitted, whatever other calls come in between and in whatever order, as long
      as none of them is accepted for this token. */
  lemma {:induction false} AdmittedOnReturn(calls: seq<Call>, between: seq<Call>, token: Token, now: int, retry: int, later: int)
    requires Refusal(Held(calls, token), now, retry) && later >= now + (retry + 1) * SECOND
    requires Accepted(calls + between, token) == Accepted(calls, token)
    ensures Admits(calls + between, Call(token, later))
  {
    AdmittedAfterHint(Held(calls, token), now, retry, later);
    OnlyForgets(calls, between, token, later - HOUR);
  }

  lemma {:induction false} OnlyForgets(calls: seq<Call>, between: seq<Call>, token: Token, cutoff: int)
    requires Accepted(calls + between, token) == Accepted(calls, token)
    ensures |After(Held(calls + between, token), cutoff)| <= |After(Held(calls, token), cutoff)|
  {
    hide After, Held, Accepted, Admits;
    if between == [] {
      assert calls + between == calls;
    } else {
      var before, c := between[..|between| - 1], between[|between| - 1];
      assert calls + between == (calls + before) + [c];
      CallSnoc(calls + before, c, token);
      AcceptedGrows(calls, before, token);
      OnlyForgets(calls, before, token, cutoff);
      if c.token == token {
        var held := Held(calls + before, token);
        assert After(held, c.now - HOUR) + [] == After(held, c.now - HOUR);
        AfterBoth(held, c.now - HOUR, cutoff);
        AfterBoth(held, cutoff, c.now - HOUR);
        AfterShrinks(After(held, cutoff), c.now - HOUR);
      }
    }
  }

  lemma {:induction false} AcceptedGrows(calls: seq<Call>, more: seq<Call>, token: Token)
    ensures |Accepted(calls + more, token)| >= |Accepted(calls, token)|
    ensures |Accepted(calls + more, token)| == |Accepted(calls, token)| ==> Accepted(calls + more, token) == Accepted(calls, token)
  {
    hide Accepted, Admits;
    if more == [] {
      assert calls + more == calls;
    } else {
      var before, c := more[..|more| - 1], more[|more| - 1];
      assert calls + more == (calls + before) + [c];
      CallSnoc(calls + before, c, token);
      AcceptedGrows(calls, before, token);
      assert Accepted(calls + before, token) + [] == Accepted(calls + before, token);
    }
  }

  lemma {:induction false} NoneDrops(stamps: seq<int>, cutoff: int)
    requires Ascending(stamps) && (stamps != [] ==> stamps[0] > cutoff)
    ensures After(stamps, cutoff) == stamps
  {
    AllKept(stamps, cutoff);
  }

  lemma {:induction false} AfterAscends(stamps: seq<int>, cutoff: int, now: int)
    requires Ascending(stamps) && UpTo(stamps, now)
    ensures Ascending(After(stamps, cutoff)) && UpTo(After(stamps, cutoff), now)
  {
    if stamps != [] {
      AfterAscends(stamps[..|stamps| - 1], cutoff, stamps[|stamps| - 1]);
    }
  }

  lemma NothingAfter(cutoff: int)
    ensures After([], cutoff) == []
  {
  }

  lemma RoundedDown(oldest: int, now: int)
    requires oldest + HOUR > now
    ensures RetryHint(oldest, now) >= 1
    ensures var d := oldest + HOUR - now;
            d <= RetryHint(oldest, now) * SECOND <==> d % SECOND == 0 || d <= SECOND
  {
    var d := oldest + HOUR - now;
    assert d == d / SECOND * SECOND + d % SECOND;
  }

  /** Exactly when the hint alone is enough: d is what really is left of the oldest stamp's
      hour, and the hint rounds it down to whole seconds but never below one. */
  lemma HintSuffices(accepted: seq<int>, now: int, retry: int)
    requires Ascending(accepted) && Refusal(accepted, now, retry)
    ensures |After(accepted, now - HOUR)| > 0
    ensures var d := After(accepted, now - HOUR)[0] + HOUR - now;
            |After(accepted, now + retry * SECOND - HOUR)| < MAX_PER_HOUR <==> d % SECOND == 0 || d <= SECOND
  {
    NothingAfter(now - HOUR);
    hide After, RetryHint;
    var window, later := After(accepted, now - HOUR), now + retry * SECOND;
    RoundedDown(window[0], now);
    AfterTwice(accepted, now - HOUR, later - HOUR);
    AfterAscends(accepted, now - HOUR, accepted[|accepted| - 1]);
    if window[0] <= later - HOUR {
      OldestDrops(window, later - HOUR);
    } else {
      NoneDrops(window, later - HOUR);
    }
  }

  /** For instance: half a second into the hour of the oldest stamp the hint falls half a
      second short. */
  lemma HintMayBeShort(accepted: seq<int>, now: int, retry: int)
    requires accepted == seq(MAX_PER_HOUR, _ => 0) && now == SECOND / 2 && retry == 3599
    ensures Refusal(accepted, now, retry)
    ensures |After(accepted, now + retry * SECOND - HOUR)| == MAX_PER_HOUR
  {
    AllKept(accepted, now - HOUR);
    AllKept(accepted, now + retry * SECOND - HOUR);
  }

  lemma {:induction false} AllKept(stamps: seq<int>, cutoff: int)
    requires forall i :: 0 <= i < |stamps| ==> stamps[i] > cutoff
    ensures After(stamps, cutoff) == stamps
  {
    if stamps != [] {
      AllKept(stamps[..|stamps| - 1], cutoff);
    }
  }

  lemma NothingLimited()
    ensures Limited([])
  {
  }
}
