/** The per-request failover loop: which credentials a request is offered to, how often,
    and how it ends. */
module Failover {
  import opened Common

  type Id = string

  datatype Provider = OpenAI | Anthropic

  datatype Kind = OAuth | ApiKey

  datatype Cred = Cred(provider: Provider, kind: Kind)

  /** An upstream error kept back, to be shown if nothing better comes. */
  datatype Deferred = Deferred(status: int, credential: Id)

  /** How one attempt ends. prepared is false when local OAuth preparation failed;
      staleSocket and capacityShed are the marks the Codex path leaves; patient is
      whether the client waits out the backoff before a same-credential retry. */
  datatype Attempt = Attempt(prepared: bool, retry: bool, done: bool, deferred: Option<Deferred>,
                             staleSocket: bool, capacityShed: bool, patient: bool)

  /** Everything outside the loop: the credentials, what the pool offers at each round
      given the excluded ones and whether only API keys qualify, how each round's attempt
      ends and when it starts, in nanoseconds. */
  datatype World = World(
    creds: map<Id, Cred>,
    messages: bool,
    apiKeyModel: bool,
    offer: (nat, set<Id>, bool) -> Option<Id>,
    attempt: nat -> Attempt,
    elapsed: nat -> int)

  /** The pool's promise: never an excluded credential, and only API keys on demand. */
  ghost predicate HonestPool(w: World) {
    forall k, excluded, keysOnly :: w.offer(k, excluded, keysOnly).Some? ==>
      var id := w.offer(k, excluded, keysOnly).value;
      id in w.creds && id !in excluded && (keysOnly ==> w.creds[id].kind == ApiKey)
  }

  const SAME_CRED_SHED_RETRIES := 2
  const FAILOVER_DEADLINE := 240 * 1_000_000_000

  datatype Reason = PreparationFailed | AllTried(n: nat) | PoolEmpty

  datatype Reply =
    | Attempted(id: Id)        // the attempt itself answered the client
    | Replayed(d: Deferred)    // the withheld upstream error
    | Unavailable(why: Reason) // 503: the pool has nothing (more) to offer
    | Exhausted                // 503: rounds or time ran out
    | ClientLeft               // nobody is left to answer

  datatype Use = Use(id: Id, attempt: Attempt)

  /** A request is prepared locally only for Anthropic subscriptions on the messages path. */
  predicate PrepFails(w: World, u: Use)
    requires u.id in w.creds
  {
    w.messages && w.creds[u.id] == Cred(Anthropic, OAuth) && !u.attempt.prepared
  }

  predicate Known(w: World, trace: seq<Use>) {
    forall u :: u in trace ==> u.id in w.creds
  }

  /** A failed Codex attempt, the only kind that can earn its credential another one. */
  predicate Bounced(w: World, u: Use)
    requires u.id in w.creds
  {
    w.creds[u.id].provider == OpenAI && u.attempt.retry
  }

  /** Second chances a credential was given for a dead pooled socket. */
  function StaleGrants(w: World, trace: seq<Use>, id: Id): nat
    requires Known(w, trace)
    decreases |trace|, 0
  {
    if trace == [] then 0
    else
      var before, u := trace[..|trace| - 1], trace[|trace| - 1];
      StaleGrants(w, before, id) + if u.id == id && GrantsStale(w, before, u) then 1 else 0
  }

  predicate GrantsStale(w: World, before: seq<Use>, u: Use)
    requires Known(w, before) && u.id in w.creds
    decreases |before|, 1
  {
    Bounced(w, u) && u.attempt.staleSocket && StaleGrants(w, before, u.id) == 0
  }

  /** Second chances it was given after a capacity refusal. */
  function ShedGrants(w: World, trace: seq<Use>, id: Id): nat
    requires Known(w, trace)
    decreases |trace|, 0
  {
    if trace == [] then 0
    else
      var before, u := trace[..|trace| - 1], trace[|trace| - 1];
      ShedGrants(w, before, id) + if u.id == id && GrantsShed(w, before, u) then 1 else 0
  }

  predicate GrantsShed(w: World, before: seq<Use>, u: Use)
    requires Known(w, before) && u.id in w.creds
    decreases |before|, 1
  {
    Bounced(w, u) && u.attempt.capacityShed && ShedGrants(w, before, u.id) < SAME_CRED_SHED_RETRIES
  }

  /** The credentials a request is done with. */
  function Excluded(w: World, trace: seq<Use>): set<Id>
    requires Known(w, trace)
  {
    if trace == [] then {}
    else
      var before, u := trace[..|trace| - 1], trace[|trace| - 1];
      if GrantsStale(w, before, u) || GrantsShed(w, before, u)
      then Excluded(w, before) - {u.id}
      else Excluded(w, before) + {u.id}
  }

  function Uses(trace: seq<Use>, id: Id): nat {
    if trace == [] then 0
    else Uses(trace[..|trace| - 1], id) + if trace[|trace| - 1].id == id then 1 else 0
  }

  /** The upstream error to replay: the latest withheld one, unless preparation failed
      after it. */
  function LastDeferred(w: World, trace: seq<Use>): Option<Deferred>
    requires Known(w, trace)
  {
    if trace == [] then None
    else
      var before, u := trace[..|trace| - 1], trace[|trace| - 1];
      if PrepFails(w, u) then None
      else if w.creds[u.id].provider != OpenAI && u.attempt.deferred.Some? then u.attempt.deferred
      else LastDeferred(w, before)
  }

  /** Whether only API keys may still serve the request. */
  predicate KeysOnly(w: World, trace: seq<Use>)
    requires Known(w, trace)
  {
    w.apiKeyModel || exists i :: 0 <= i < |trace| && PrepFails(w, trace[i])
  }

  predicate PrepPending(w: World, trace: seq<Use>)
    requires Known(w, trace)
  {
    trace != [] && PrepFails(w, trace[|trace| - 1])
  }

  lemma TraceSnoc(w: World, trace: seq<Use>, u: Use, id: Id)
    requires Known(w, trace) && u.id in w.creds
    ensures Known(w, trace + [u])
    ensures StaleGrants(w, trace + [u], id) ==
            StaleGrants(w, trace, id) + if u.id == id && GrantsStale(w, trace, u) then 1 else 0
    ensures ShedGrants(w, trace + [u], id) ==
            ShedGrants(w, trace, id) + if u.id == id && GrantsShed(w, trace, u) then 1 else 0
    ensures Excluded(w, trace + [u]) ==
            if GrantsStale(w, trace, u) || GrantsShed(w, trace, u)
            then Excluded(w, trace) - {u.id} else Excluded(w, trace) + {u.id}
    ensures Uses(trace + [u], id) == Uses(trace, id) + if u.id == id then 1 else 0
    ensures LastDeferred(w, trace + [u]) ==
            if PrepFails(w, u) then None
            else if w.creds[u.id].provider != OpenAI && u.attempt.deferred.Some? then u.attempt.deferred
            else LastDeferred(w, trace)
    ensures KeysOnly(w, trace + [u]) == (KeysOnly(w, trace) || PrepFails(w, u))
  {
    var all := trace + [u];
    assert all[..|trace|] == trace && all[|trace|] == u;
    assert forall x :: x in all <==> x in trace || x == u;
    if PrepFails(w, u) {
      assert PrepFails(w, all[|trace|]);
    } else if exists i :: 0 <= i < |trace| && PrepFails(w, trace[i]) {
      var i :| 0 <= i < |trace| && PrepFails(w, trace[i]);
      assert PrepFails(w, all[i]);
    }
  }

  /** A trace the loop can produce: no excluded credential is used again, once
      preparation has failed only API keys are, and the pool offered every one. */
  ghost predicate Legal(w: World, trace: seq<Use>) {
    && Known(w, trace)
    && forall i :: 0 <= i < |trace| ==>
         && Known(w, trace[..i])
         && trace[i].id !in Excluded(w, trace[..i])
         && (KeysOnly(w, trace[..i]) ==> w.creds[trace[i].id].kind == ApiKey)
         && w.offer(i, Excluded(w, trace[..i]), KeysOnly(w, trace[..i])) == Some(trace[i].id)
         && trace[i].attempt == w.attempt(i)
  }

  /** The reply is the one the trace calls for. */
  ghost predicate Fits(w: World, maxAttempts: nat, trace: seq<Use>, reply: Reply)
    requires Known(w, trace)
  {
    var k := |trace|;
    match reply
    case Attempted(id) =>
      && k > 0 && trace[k - 1].id == id && !PrepFails(w, trace[k - 1])
      && (trace[k - 1].attempt.done || !trace[k - 1].attempt.retry)
    case ClientLeft =>
      && k > 0 && !trace[k - 1].attempt.patient
      && Known(w, trace[..k - 1]) && GrantsShed(w, trace[..k - 1], trace[k - 1])
    case Replayed(d) => LastDeferred(w, trace) == Some(d) && (OutOfCreds(w, trace) || OutOfRounds(w, maxAttempts, trace))
    case Exhausted => LastDeferred(w, trace).None? && OutOfRounds(w, maxAttempts, trace)
    case Unavailable(why) =>
      && LastDeferred(w, trace).None? && OutOfCreds(w, trace)
      && why == if PrepPending(w, trace) then PreparationFailed
                else if Excluded(w, trace) != {} then AllTried(|Excluded(w, trace)|)
                else PoolEmpty
  }

  predicate OutOfCreds(w: World, trace: seq<Use>)
    requires Known(w, trace)
  {
    w.offer(|trace|, Excluded(w, trace), KeysOnly(w, trace)).None?
  }

  predicate OutOfRounds(w: World, maxAttempts: nat, trace: seq<Use>) {
    |trace| == maxAttempts || (|trace| > 0 && w.elapsed(|trace|) > FAILOVER_DEADLINE)
  }

  /** The loop's own variables. */
  datatype Vars = Vars(tried: set<Id>, lastDeferred: Option<Deferred>, apiKeyOnly: bool, prepPending: bool,
                       stale: set<Id>, shed: map<Id, nat>)

  /** They say about the trace what their names promise. */
  ghost predicate Tracks(w: World, trace: seq<Use>, v: Vars) {
    && Known(w, trace)
    && v.tried == Excluded(w, trace)
    && v.lastDeferred == LastDeferred(w, trace)
    && v.apiKeyOnly == KeysOnly(w, trace)
    && v.prepPending == PrepPending(w, trace)
    && Booked(w, trace, v.stale, v.shed)
  }

  /** A round that does not end the request: its credential was refused before anything was
      sent, or failed in a way another one may not. */
  predicate GoesOn(w: World, u: Use) {
    && u.id in w.creds
    && (|| (w.messages && w.creds[u.id] == Cred(Anthropic, OAuth) && !u.attempt.prepared)
        || (u.attempt.retry && !u.attempt.done))
  }

  /** The loop itself, for any cap on the rounds. No round starts four minutes in, none
      follows one that settled the request, and the loop gives up on a pool that still has a
      candidate only at the cap or after four minutes. */
  method ForwardWithFailover(w: World, maxAttempts: nat) returns (reply: Reply, trace: seq<Use>)
    requires HonestPool(w)
    ensures Legal(w, trace) && |trace| <= maxAttempts
    ensures Fits(w, maxAttempts, trace, reply)
    ensures forall i :: 0 < i < |trace| ==> w.elapsed(i) <= 240_000_000_000
    ensures forall i :: 0 <= i < |trace| - 1 ==>
              || (w.messages && w.creds[trace[i].id] == Cred(Anthropic, OAuth) && !trace[i].attempt.prepared)
              || (trace[i].attempt.retry && !trace[i].attempt.done)
    ensures reply.Exhausted? || reply.Replayed? ==>
              || w.offer(|trace|, Excluded(w, trace), KeysOnly(w, trace)).None?
              || |trace| == maxAttempts
              || (|trace| > 0 && w.elapsed(|trace|) > 240_000_000_000)
    ensures reply.Unavailable? ==> w.offer(|trace|, Excluded(w, trace), KeysOnly(w, trace)).None?
  {
    hide Excluded, LastDeferred, KeysOnly, Booked, GrantsStale, GrantsShed, Legal;
    Fresh(w);
    trace := [];
    var v := Vars({}, None, w.apiKeyModel, false, {}, map[]);
    var attempt := 0;
    while attempt < maxAttempts
      invariant attempt == |trace| <= maxAttempts
      invariant Legal(w, trace) && Tracks(w, trace, v)
      invariant forall i :: 0 < i < |trace| ==> w.elapsed(i) <= 240_000_000_000
      invariant forall i :: 0 <= i < |trace| ==> GoesOn(w, trace[i])
    {
      if attempt > 0 && w.elapsed(attempt) > FAILOVER_DEADLINE {
        break;
      }
      var a := w.offer(attempt, v.tried, v.apiKeyOnly);
      if a.None? {
        if v.lastDeferred.Some? {
          return Replayed(v.lastDeferred.value), trace;
        }
        var why := if v.prepPending then PreparationFailed
                   else if |v.tried| > 0 then AllTried(|v.tried|)
                   else PoolEmpty;
        return Unavailable(why), trace;
      }
      var u, end := Use(a.value, w.attempt(attempt)), None;
      v, end := TryCredential(w, trace, u, v);
      trace := trace + [u];
      attempt := attempt + 1;
      if end.Some? {
        return end.value, trace;
      }
    }
    reply := if v.lastDeferred.Some? then Replayed(v.lastDeferred.value) else Exhausted;
  }

  /** One round with the credential the pool offered. */
  method TryCredential(w: World, ghost trace: seq<Use>, u: Use, v: Vars) returns (v': Vars, end: Option<Reply>)
    requires HonestPool(w) && Legal(w, trace) && Tracks(w, trace, v)
    requires u.attempt == w.attempt(|trace|) && w.offer(|trace|, v.tried, v.apiKeyOnly) == Some(u.id)
    ensures Legal(w, trace + [u]) && Known(w, trace + [u])
    ensures end.None? ==> Tracks(w, trace + [u], v') && GoesOn(w, u)
    ensures end.Some? ==> (end.value.Attempted? || end.value.ClientLeft?) && Fits(w, 0, trace + [u], end.value)
  {
    hide Excluded, LastDeferred, KeysOnly, Booked, GrantsStale, GrantsShed, Legal, HonestPool;
    Account(w, trace, u, v.stale, v.shed);
    var id, r := u.id, u.attempt;
    v', end := v.(tried := v.tried + {id}), None;
    if w.creds[id] == Cred(Anthropic, OAuth) && w.messages {
      if !r.prepared {
        v' := v'.(apiKeyOnly := true, prepPending := true, lastDeferred := None);
        return;
      }
    }
    if v'.prepPending && w.creds[id].kind == ApiKey {
      v' := v'.(prepPending := false);
    }
    var deferred := None;
    if w.creds[id].provider == OpenAI {
      var tried, stale, shed, left := SecondChance(u, v'.tried, v'.stale, v'.shed);
      v' := v'.(tried := tried, stale := stale, shed := shed);
      if left {
        return v', Some(ClientLeft);
      }
    } else {
      deferred := r.deferred;
    }
    if r.done || !r.retry {
      return v', Some(Attempted(id));
    }
    if deferred.Some? {
      v' := v'.(lastDeferred := deferred);
    }
  }

  /** Puts a Codex credential back among the candidates, once for a dead pooled socket
      and at most twice for a capacity refusal. */
  method SecondChance(u: Use, tried: set<Id>, stale: set<Id>, shed: map<Id, nat>)
    returns (tried': set<Id>, stale': set<Id>, shed': map<Id, nat>, left: bool)
    ensures var dead := u.attempt.retry && u.attempt.staleSocket && u.id !in stale;
            var full := u.attempt.retry && u.attempt.capacityShed && Spent(shed, u.id) < SAME_CRED_SHED_RETRIES;
            && stale' == (if dead then stale + {u.id} else stale)
            && shed' == (if full then shed[u.id := Spent(shed, u.id) + 1] else shed)
            && tried' == (if dead || full then tried - {u.id} else tried)
            && left == (full && !u.attempt.patient)
  {
    var id, r := u.id, u.attempt;
    tried', stale', shed', left := tried, stale, shed, false;
    if r.staleSocket && r.retry && id !in stale {
      stale' := stale + {id};
      tried' := tried' - {id};
    }
    if r.capacityShed && r.retry && Spent(shed, id) < SAME_CRED_SHED_RETRIES {
      shed' := shed[id := Spent(shed, id) + 1];
      tried' := tried' - {id};
      left := !r.patient;
    }
  }

  function Spent(shed: map<Id, nat>, id: Id): nat {
    if id in shed then shed[id] else 0
  }

  /** The loop's two maps record the grants. */
  ghost predicate Booked(w: World, trace: seq<Use>, stale: set<Id>, shed: map<Id, nat>)
    requires Known(w, trace)
  {
    forall id :: (id in stale <==> StaleGrants(w, trace, id) > 0) && Spent(shed, id) == ShedGrants(w, trace, id)
  }

  lemma Fresh(w: World)
    ensures Excluded(w, []) == {} && LastDeferred(w, []) == None && KeysOnly(w, []) == w.apiKeyModel
    ensures Booked(w, [], {}, map[]) && Legal(w, [])
  {
  }

  /** One more use keeps a trace legal, and moves the loop's variables as it should. */
  lemma Account(w: World, trace: seq<Use>, u: Use, stale: set<Id>, shed: map<Id, nat>)
    requires HonestPool(w) && Legal(w, trace) && u.attempt == w.attempt(|trace|)
    requires w.offer(|trace|, Excluded(w, trace), KeysOnly(w, trace)) == Some(u.id)
    requires Booked(w, trace, stale, shed)
    ensures u.id in w.creds && (KeysOnly(w, trace) ==> w.creds[u.id].kind == ApiKey)
    ensures Legal(w, trace + [u]) && Known(w, trace) && Known(w, trace + [u])
    ensures (trace + [u])[..|trace|] == trace
    ensures GrantsStale(w, trace, u) <==> Bounced(w, u) && u.attempt.staleSocket && u.id !in stale
    ensures GrantsShed(w, trace, u) <==>
            Bounced(w, u) && u.attempt.capacityShed && Spent(shed, u.id) < SAME_CRED_SHED_RETRIES
    ensures Booked(w, trace + [u],
                   if GrantsStale(w, trace, u) then stale + {u.id} else stale,
                   if GrantsShed(w, trace, u) then shed[u.id := Spent(shed, u.id) + 1] else shed)
    ensures Excluded(w, trace + [u]) ==
            if GrantsStale(w, trace, u) || GrantsShed(w, trace, u)
            then Excluded(w, trace) - {u.id} else Excluded(w, trace) + {u.id}
    ensures LastDeferred(w, trace + [u]) ==
            if PrepFails(w, u) then None
            else if w.creds[u.id].provider != OpenAI && u.attempt.deferred.Some? then u.attempt.deferred
            else LastDeferred(w, trace)
    ensures KeysOnly(w, trace + [u]) == (KeysOnly(w, trace) || PrepFails(w, u))
    ensures PrepPending(w, trace) ==> KeysOnly(w, trace)
  {
    LegalSnoc(w, trace, u);
    assert Known(w, trace) && u.id in w.creds;
    BookedSnoc(w, trace, u, stale, shed);
    TraceSnoc(w, trace, u, u.id);
    hide StaleGrants, ShedGrants, Excluded, LastDeferred, PrepFails, Legal, Booked;
  }

  lemma BookedSnoc(w: World, trace: seq<Use>, u: Use, stale: set<Id>, shed: map<Id, nat>)
    requires Known(w, trace) && u.id in w.creds && Booked(w, trace, stale, shed)
    ensures Known(w, trace + [u])
    ensures GrantsStale(w, trace, u) <==> Bounced(w, u) && u.attempt.staleSocket && u.id !in stale
    ensures GrantsShed(w, trace, u) <==>
            Bounced(w, u) && u.attempt.capacityShed && Spent(shed, u.id) < SAME_CRED_SHED_RETRIES
    ensures Booked(w, trace + [u],
                   if GrantsStale(w, trace, u) then stale + {u.id} else stale,
                   if GrantsShed(w, trace, u) then shed[u.id := Spent(shed, u.id) + 1] else shed)
  {
    hide StaleGrants, ShedGrants, Excluded, LastDeferred, PrepFails, KeysOnly, Uses;
    forall id {
      TraceSnoc(w, trace, u, id);
    }
  }

  lemma LegalSnoc(w: World, trace: seq<Use>, u: Use)
    requires HonestPool(w) && Legal(w, trace) && u.attempt == w.attempt(|trace|)
    requires w.offer(|trace|, Excluded(w, trace), KeysOnly(w, trace)) == Some(u.id)
    ensures Legal(w, trace + [u])
    ensures (trace + [u])[..|trace|] == trace
  {
    hide Excluded, KeysOnly;
    var all := trace + [u];
    assert forall x :: x in all <==> x in trace || x == u;
    assert all[..|trace|] == trace;
    forall i | 0 <= i < |trace|
      ensures all[..i] == trace[..i] && all[i] == trace[i]
    {
    }
  }

  lemma LegalPrefix(w: World, trace: seq<Use>, n: nat)
    requires Legal(w, trace) && n <= |trace|
    ensures Legal(w, trace[..n])
  {
    hide Excluded, KeysOnly;
    forall i | 0 <= i < n
      ensures trace[..n][..i] == trace[..i]
    {
    }
  }

  /** Earlier failed attempts of a Codex credential that bear one of the two marks. */
  function Marked(w: World, trace: seq<Use>, id: Id, stale: bool): nat
    requires Known(w, trace)
  {
    if trace == [] then 0
    else
      var u := trace[|trace| - 1];
      var mark := if stale then u.attempt.staleSocket else u.attempt.capacityShed;
      Marked(w, trace[..|trace| - 1], id, stale)
      + if u.id == id && w.creds[id].provider == OpenAI && u.attempt.retry && mark then 1 else 0
  }

  lemma {:induction false} GrantsAreMarks(w: World, trace: seq<Use>, id: Id)
    requires Known(w, trace)
    ensures StaleGrants(w, trace, id) == if Marked(w, trace, id, true) < 1 then Marked(w, trace, id, true) else 1
    ensures ShedGrants(w, trace, id) == if Marked(w, trace, id, false) < 2 then Marked(w, trace, id, false) else 2
  {
    if trace != [] {
      GrantsAreMarks(w, trace[..|trace| - 1], id);
    }
  }

  /** Exactly when a credential stays a candidate after an attempt: it is a Codex one, the
      attempt failed, and this was its first dead socket or at most its second capacity
      refusal. Every other credential is where it was. */
  lemma PutBackExactly(w: World, trace: seq<Use>, u: Use)
    requires Known(w, trace) && u.id in w.creds
    ensures Known(w, trace + [u])
    ensures u.id !in Excluded(w, trace + [u]) <==>
            && w.creds[u.id].provider == OpenAI && u.attempt.retry
            && (|| (u.attempt.staleSocket && Marked(w, trace, u.id, true) == 0)
                || (u.attempt.capacityShed && Marked(w, trace, u.id, false) < 2))
    ensures forall id :: id != u.id ==> (id in Excluded(w, trace + [u]) <==> id in Excluded(w, trace))
  {
    GrantsAreMarks(w, trace, u.id);
    TraceSnoc(w, trace, u, u.id);
    hide StaleGrants, ShedGrants, Excluded, Marked;
  }

  /** What there is to replay: the error kept back last, unless preparation failed since. */
  lemma {:induction false} ReplayedIsLast(w: World, trace: seq<Use>, k: nat)
    requires Known(w, trace) && k < |trace|
    requires w.creds[trace[k].id].provider == Anthropic && trace[k].attempt.deferred.Some? && trace[k].attempt.prepared
    requires forall i :: k < i < |trace| ==>
               && w.creds[trace[i].id].provider == Anthropic ==> trace[i].attempt.deferred.None? && trace[i].attempt.prepared
    ensures LastDeferred(w, trace) == trace[k].attempt.deferred
    decreases |trace|
  {
    if k < |trace| - 1 {
      ReplayedIsLast(w, trace[..|trace| - 1], k);
    }
  }

  /** Every use of a credential is its first, or was earned by a grant. */
  lemma {:induction false} UsesEarned(w: World, trace: seq<Use>, id: Id)
    requires Legal(w, trace)
    ensures Uses(trace, id) <=
            (if id in Excluded(w, trace) then 1 else 0) + StaleGrants(w, trace, id) + ShedGrants(w, trace, id)
    ensures StaleGrants(w, trace, id) <= 1 && ShedGrants(w, trace, id) <= SAME_CRED_SHED_RETRIES
    decreases |trace|
  {
    if trace != [] {
      var n := |trace| - 1;
      LegalPrefix(w, trace, n);
      UsesEarned(w, trace[..n], id);
    }
  }

  /** No credential is used more than four times, and none that is excluded ever again. */
  lemma FourUsesAtMost(w: World, trace: seq<Use>, id: Id)
    requires Legal(w, trace)
    ensures Uses(trace, id) <= 4
  {
    UsesEarned(w, trace, id);
  }

  /** Preparation fails at most once, and from then on only API keys are used. */
  lemma PreparationFailsOnce(w: World, trace: seq<Use>, i: nat, j: nat)
    requires Legal(w, trace) && i < j < |trace|
    requires w.messages && w.creds[trace[i].id] == Cred(Anthropic, OAuth) && !trace[i].attempt.prepared
    ensures w.creds[trace[j].id].kind == ApiKey
  {
    assert trace[..j][i] == trace[i];
    assert KeysOnly(w, trace[..j]);
  }

  function Without(trace: seq<Use>, id: Id): seq<Use> {
    if trace == [] then []
    else Without(trace[..|trace| - 1], id) + if trace[|trace| - 1].id == id then [] else [trace[|trace| - 1]]
  }

  lemma {:induction false} WithoutCounts(trace: seq<Use>, id: Id, other: Id)
    ensures |trace| == |Without(trace, id)| + Uses(trace, id)
    ensures Uses(Without(trace, id), other) == if other == id then 0 else Uses(trace, other)
    ensures forall u :: u in Without(trace, id) ==> u in trace && u.id != id
    decreases |trace|
  {
    if trace != [] {
      var before, u := trace[..|trace| - 1], trace[|trace| - 1];
      WithoutCounts(before, id, other);
      var rest := Without(before, id);
      assert rest + [] == rest;
      assert (rest + [u])[..|rest|] == rest && (rest + [u])[|rest|] == u;
      if u.id == id {
        assert Without(trace, id) == rest;
      } else {
        assert Without(trace, id) == rest + [u];
      }
    }
  }

  lemma {:induction false} BoundedByUses(trace: seq<Use>, ids: set<Id>, most: nat)
    requires forall u :: u in trace ==> u.id in ids
    requires forall id :: Uses(trace, id) <= most
    ensures |trace| <= most * |ids|
    decreases |ids|
  {
    hide Uses, Without;
    if trace == [] {
      assert 0 <= most * |ids|;
    } else {
      var id := trace[0].id;
      WithoutCounts(trace, id, id);
      forall other
        ensures Uses(Without(trace, id), other) <= most
      {
        WithoutCounts(trace, id, other);
      }
      var rest := Without(trace, id);
      assert trace[0] in trace;
      assert forall u :: u in rest ==> u.id in ids - {id};
      BoundedByUses(rest, ids - {id}, most);
      assert |ids| == |ids - {id}| + 1;
      assert most * |ids| == most * |ids - {id}| + most;
    }
  }

  /** The loop ends by itself: whatever the cap, it makes at most four rounds per
      credential, so a cap above that is never what ends it. */
  lemma RoundsAreBounded(w: World, maxAttempts: nat, trace: seq<Use>)
    requires Legal(w, trace)
    ensures |trace| <= 4 * |w.creds|
    ensures maxAttempts > 4 * |w.creds| ==> |trace| < maxAttempts
  {
    forall id {
      FourUsesAtMost(w, trace, id);
    }
    BoundedByUses(trace, w.creds.Keys, 4);
    assert |w.creds.Keys| == |w.creds|;
  }

  // ---- The cap of twelve can cut a request short ----

  const MAX_ATTEMPTS := 12

  function Name(i: nat): Id {
    if i == 0 then "a" else if i == 1 then "b" else if i == 2 then "c" else "d"
  }

  /** The first q names. */
  function Names(q: nat): set<Id> {
    if q == 0 then {} else Names(q - 1) + {Name(q - 1)}
  }

  lemma NamesApart(q: nat, j: nat)
    requires q <= j < 4
    ensures Name(j) !in Names(q)
  {
  }

  /** Four subscriptions; the pool offers the first that is not excluded. Each one first
      hits a dead socket, is then refused twice for capacity, and then just fails. */
  function Stubborn(): World {
    World(
      map["a" := Cred(OpenAI, OAuth), "b" := Cred(OpenAI, OAuth), "c" := Cred(OpenAI, OAuth), "d" := Cred(OpenAI, OAuth)],
      false, false,
      (k, excluded: set<Id>, keysOnly) =>
        if keysOnly then None
        else if "a" !in excluded then Some("a")
        else if "b" !in excluded then Some("b")
        else if "c" !in excluded then Some("c")
        else if "d" !in excluded then Some("d")
        else None,
      k => Attempt(true, true, false, None, k % 4 == 0, k % 4 == 1 || k % 4 == 2, true),
      k => 0)
  }

  /** Its first k rounds: four on each name in turn. */
  function Rounds(k: nat): (trace: seq<Use>)
    ensures |trace| == k
    ensures forall u :: u in trace ==> u.id in Stubborn().creds
  {
    if k == 0 then [] else Rounds(k - 1) + [Use(Name((k - 1) / 4), Stubborn().attempt(k - 1))]
  }

  lemma NextRound(k: nat)
    requires k < 16
    ensures var u := Use(Name(k / 4), Stubborn().attempt(k));
            && Rounds(k + 1) == Rounds(k) + [u]
            && u.id in Stubborn().creds && Bounced(Stubborn(), u) && !PrepFails(Stubborn(), u)
            && Stubborn().creds[u.id].provider == OpenAI
            && u.attempt.staleSocket == (k % 4 == 0) && u.attempt.capacityShed == (k % 4 == 1 || k % 4 == 2)
  {
  }

  lemma NameApart(i: nat, j: nat)
    requires i < 4 && j < 4
    ensures Name(i) == Name(j) <==> i == j
  {
  }

  /** What the first k rounds grant the j-th name. */
  lemma {:induction false} RoundsGrant(k: nat, j: nat)
    requires k <= 16 && j < 4
    ensures StaleGrants(Stubborn(), Rounds(k), Name(j)) == if k > 4 * j then 1 else 0
    ensures ShedGrants(Stubborn(), Rounds(k), Name(j)) ==
            if k <= 4 * j + 1 then 0 else if k == 4 * j + 2 then 1 else 2
    ensures k <= 4 * j ==> Uses(Rounds(k), Name(j)) == 0
  {
    if k > 0 {
      var w, i := Stubborn(), (k - 1) / 4;
      NextRound(k - 1);
      RoundsGrant(k - 1, j);
      NameApart(i, j);
      hide StaleGrants, ShedGrants, Excluded, LastDeferred, KeysOnly, Uses, Rounds, Stubborn, Name, PrepFails, Bounced;
      TraceSnoc(w, Rounds(k - 1), Use(Name(i), w.attempt(k - 1)), Name(j));
    }
  }

  lemma FourthFails(k: nat)
    requires k < 16
    ensures var u := Use(Name(k / 4), Stubborn().attempt(k));
            && u.id in Stubborn().creds
            && (GrantsStale(Stubborn(), Rounds(k), u) || GrantsShed(Stubborn(), Rounds(k), u) <==> k % 4 != 3)
    ensures (k + 1) / 4 == if k % 4 == 3 then k / 4 + 1 else k / 4
  {
    NextRound(k);
    RoundsGrant(k, k / 4);
    hide StaleGrants, ShedGrants, Rounds, Stubborn, Name, Bounced;
    assert k == 4 * (k / 4) + k % 4;
  }

  /** Every fourth round uses a name up; nothing is ever there to replay. */
  lemma {:induction false} RoundsLeave(k: nat)
    requires k <= 16
    ensures Excluded(Stubborn(), Rounds(k)) == Names(k / 4)
    ensures LastDeferred(Stubborn(), Rounds(k)) == None && !KeysOnly(Stubborn(), Rounds(k))
  {
    hide StaleGrants, ShedGrants, Excluded, LastDeferred, KeysOnly, Rounds, Stubborn, Name, Names, PrepFails, Bounced, Legal;
    Start();
    if k > 0 {
      var w, i := Stubborn(), (k - 1) / 4;
      NextRound(k - 1);
      RoundsLeave(k - 1);
      FourthFails(k - 1);
      NamesGrow(i);
      hide GrantsStale, GrantsShed;
      TraceSnoc(w, Rounds(k - 1), Use(Name(i), w.attempt(k - 1)), Name(i));
    }
  }

  lemma Start()
    ensures Rounds(0) == [] && Names(0) == {}
    ensures Excluded(Stubborn(), []) == {} && LastDeferred(Stubborn(), []) == None && !KeysOnly(Stubborn(), [])
    ensures Legal(Stubborn(), [])
  {
  }

  lemma NamesGrow(i: nat)
    requires i < 4
    ensures Names(i + 1) == Names(i) + {Name(i)} && Names(i) - {Name(i)} == Names(i)
  {
    NamesApart(i, i);
  }

  lemma StubbornIsHonest()
    ensures HonestPool(Stubborn()) && |Stubborn().creds| == 4
  {
    assert Stubborn().creds.Keys == {"a", "b", "c", "d"};
  }

  lemma {:induction false} RoundsLegal(k: nat)
    requires k <= MAX_ATTEMPTS
    ensures Legal(Stubborn(), Rounds(k))
  {
    hide Legal, HonestPool, Excluded, KeysOnly, LastDeferred, Stubborn, Rounds, Name, Names, PrepFails, Bounced;
    Start();
    if k > 0 {
      var w, q := Stubborn(), (k - 1) / 4;
      RoundsLegal(k - 1);
      NextRound(k - 1);
      RoundsLeave(k - 1);
      StubbornIsHonest();
      OffersNext(k - 1, q);
      LegalSnoc(w, Rounds(k - 1), Use(Name(q), w.attempt(k - 1)));
    }
  }

  lemma OffersNext(k: nat, q: nat)
    requires q < 4
    ensures Stubborn().offer(k, Names(q), false) == Some(Name(q))
  {
    assert Names(0) == {} && Names(1) == {"a"} && Names(2) == {"a", "b"} && Names(3) == {"a", "b", "c"};
  }

  /** After twelve rounds the loop gives up, with nothing to replay and a credential never
      tried that the pool would still offer. By RoundsAreBounded a cap above sixteen could
      not have ended this request. */
  lemma CapCutsShort() returns (w: World, trace: seq<Use>)
    ensures HonestPool(w) && |w.creds| == 4
    ensures Legal(w, trace) && Fits(w, MAX_ATTEMPTS, trace, Exhausted)
    ensures w.offer(|trace|, Excluded(w, trace), KeysOnly(w, trace)) == Some("d") && Uses(trace, "d") == 0
  {
    w, trace := Stubborn(), Rounds(MAX_ATTEMPTS);
    StubbornIsHonest();
    RoundsLegal(MAX_ATTEMPTS);
    RoundsLeave(MAX_ATTEMPTS);
    RoundsGrant(MAX_ATTEMPTS, 3);
    OffersNext(MAX_ATTEMPTS, 3);
  }
}
