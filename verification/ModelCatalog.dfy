/** The background-refreshed catalog of relay models, as a state machine over its locked
    sections, and the guard that refuses a model on the strength of it. Times are in
    nanoseconds. */
module ModelCatalog {
  import opened Common
  import opened ModelGuard

  const SECOND := 1_000_000_000
  const MODEL_TTL := 300 * SECOND
  const PROBE_MIN_INTERVAL := 30 * SECOND

  type Names = set<string>

  /** One probe round, run by its own goroutine: how many credentials it asks, what the
      first ones answered, and the union gathered from those answers. */
  datatype Round = Round(creds: nat, answers: seq<Names>, gathered: Names)

  /** The shared catalog, the rounds in flight, and what has happened so far. */
  datatype Catalog = Catalog(
    models: Option<Names>,
    fetchedAt: Option<int>,
    lastAttempt: Option<int>,
    refreshing: bool,
    rounds: map<nat, Round>,
    clock: int,
    starts: seq<int>,
    published: seq<Round>)

  datatype Event =
    | Ask(creds: nat, id: nat)                // a request consults the catalog
    | Answer(id: nat, models: Option<Names>)  // a round's next probe ends, None on failure
    | Publish(id: nat)                        // a round has asked every credential

  predicate Init(s: Catalog) {
    s == Catalog(None, None, None, false, map[], s.clock, [], [])
  }

  predicate Older(since: Option<int>, now: int, limit: int) {
    since.None? || now - since.value > limit
  }

  predicate Enabled(s: Catalog, e: Event) {
    match e
    case Ask(creds, id) => creds > 0 && id !in s.rounds
    case Answer(id, _) => id in s.rounds && |s.rounds[id].answers| < s.rounds[id].creds
    case Publish(id) => id in s.rounds && |s.rounds[id].answers| == s.rounds[id].creds
  }

  function Apply(s: Catalog, e: Event, now: int): Catalog
    requires Enabled(s, e)
  {
    var t := s.(clock := now);
    match e
    case Ask(creds, id) =>
      var stale := Older(s.fetchedAt, now, MODEL_TTL);
      var cooled := Older(s.lastAttempt, now, PROBE_MIN_INTERVAL);
      if stale && cooled && !s.refreshing
      then t.(refreshing := true, lastAttempt := Some(now), starts := s.starts + [now],
              rounds := s.rounds[id := Round(creds, [], {})])
      else t
    case Answer(id, models) =>
      var r := s.rounds[id];
      (match models
       case None => t.(refreshing := false, rounds := s.rounds - {id})
       case Some(names) => t.(rounds := s.rounds[id := Round(r.creds, r.answers + [names], r.gathered + names)]))
    case Publish(id) =>
      t.(refreshing := false, models := Some(s.rounds[id].gathered), fetchedAt := Some(now),
         rounds := s.rounds - {id}, published := s.published + [s.rounds[id]])
  }

  ghost predicate Next(s: Catalog, t: Catalog) {
    exists e, now :: s.clock <= now && Enabled(s, e) && t == Apply(s, e, now)
  }

  /** A finite run, any interleaving of requests and rounds on a clock that never goes
      back. */
  ghost predicate Run(run: seq<Catalog>) {
    && run != [] && Init(run[0])
    && forall i :: 0 <= i < |run| - 1 ==> Next(run[i], run[i + 1])
  }

  function Union(answers: seq<Names>): Names {
    if answers == [] then {} else Union(answers[..|answers| - 1]) + answers[|answers| - 1]
  }

  predicate GoodRound(r: Round) {
    |r.answers| <= r.creds && r.creds > 0 && r.gathered == Union(r.answers)
  }

  /** A round that every one of its credentials answered. */
  predicate Complete(r: Round) {
    |r.answers| == r.creds && r.creds > 0 && r.gathered == Union(r.answers)
  }

  predicate Inv(s: Catalog) {
    && (forall id, other :: id in s.rounds && other in s.rounds ==> id == other)
    && (s.refreshing <==> s.rounds != map[])
    && (forall id :: id in s.rounds ==> GoodRound(s.rounds[id]))
    && (s.starts == [] <==> s.lastAttempt.None?)
    && (s.starts != [] ==> s.lastAttempt == Some(s.starts[|s.starts| - 1]) && s.lastAttempt.value <= s.clock)
    && (forall i :: 0 <= i < |s.starts| - 1 ==> s.starts[i + 1] - s.starts[i] > PROBE_MIN_INTERVAL)
    && (forall r :: r in s.published ==> Complete(r))
    && s.models == if s.published == [] then None else Some(s.published[|s.published| - 1].gathered)
  }

  lemma ApplyKeeps(s: Catalog, e: Event, now: int)
    requires Inv(s) && Enabled(s, e) && s.clock <= now
    ensures Inv(Apply(s, e, now))
    ensures s.models.Some? ==> Apply(s, e, now).models.Some?
    ensures s.published <= Apply(s, e, now).published
  {
    var t := Apply(s, e, now);
    match e
    case Ask(creds, id) =>
    case Answer(id, models) =>
      if models.Some? {
        var r := s.rounds[id];
        assert (r.answers + [models.value])[..|r.answers|] == r.answers;
        assert GoodRound(t.rounds[id]);
      }
    case Publish(id) =>
      assert Complete(s.rounds[id]);
  }

  /** In every reachable state at most one refresh is in flight, refreshes started more
      than thirty seconds apart, and what is published is the union of one round that
      every credential answered. */
  lemma {:induction false} RunKeeps(run: seq<Catalog>, i: nat)
    requires Run(run) && i < |run|
    ensures Inv(run[i])
    ensures |run[i].rounds| <= 1
  {
    if i > 0 {
      RunKeeps(run, i - 1);
      assert Next(run[i - 1], run[i]);
      var e, now :| run[i - 1].clock <= now && Enabled(run[i - 1], e) && run[i] == Apply(run[i - 1], e, now);
      ApplyKeeps(run[i - 1], e, now);
    }
    AtMostOne(run[i]);
  }

  lemma AtMostOne(s: Catalog)
    requires Inv(s)
    ensures |s.rounds| <= 1
  {
    if s.rounds != map[] {
      var id :| id in s.rounds;
      assert s.rounds.Keys == {id};
      assert |s.rounds| == |s.rounds.Keys|;
    }
  }

  /** Exactly when a consultation starts a refresh: none is running, the catalog is missing or
      over five minutes old, and the last attempt, if any, is over thirty seconds back. */
  lemma AskStartsExactly(s: Catalog, creds: nat, id: nat, now: int)
    requires Enabled(s, Ask(creds, id))
    ensures var t := Apply(s, Ask(creds, id), now);
            && t.models == s.models
            && (if !s.refreshing
                   && (s.fetchedAt.None? || now - s.fetchedAt.value > 300_000_000_000)
                   && (s.lastAttempt.None? || now - s.lastAttempt.value > 30_000_000_000)
                then t.refreshing && t.lastAttempt == Some(now) && t.starts == s.starts + [now]
                     && t.rounds == s.rounds[id := Round(creds, [], {})]
                else t.refreshing == s.refreshing && t.lastAttempt == s.lastAttempt && t.starts == s.starts && t.rounds == s.rounds)
  {
  }

  /** How a round ends: a failed probe makes room for the next round and leaves the catalog
      as it was; a full round publishes what it gathered. */
  lemma RoundEnds(s: Catalog, id: nat, now: int)
    requires id in s.rounds
    ensures Enabled(s, Answer(id, None)) ==>
              var t := Apply(s, Answer(id, None), now);
              !t.refreshing && id !in t.rounds && t.models == s.models && t.fetchedAt == s.fetchedAt
    ensures Enabled(s, Publish(id)) ==>
              var t := Apply(s, Publish(id), now);
              !t.refreshing && id !in t.rounds && t.models == Some(s.rounds[id].gathered) && t.fetchedAt == Some(now)
  {
  }

  /** A request with API keys can always ask, and a round in flight can always go on: it gets
      an answer from its next credential, whatever that is, or has asked them all and
      publishes. */
  lemma RoundsGoOn(run: seq<Catalog>, i: nat, creds: nat, id: nat, answer: Option<Names>)
    requires Run(run) && i < |run|
    ensures creds > 0 && id !in run[i].rounds ==> Enabled(run[i], Ask(creds, id))
    ensures id in run[i].rounds ==> Enabled(run[i], Answer(id, answer)) || Enabled(run[i], Publish(id))
  {
    RunKeeps(run, i);
  }

  /** A catalog once fetched is never unlearned, and no published round is forgotten. */
  lemma {:induction false} NeverUnlearned(run: seq<Catalog>, i: nat, j: nat)
    requires Run(run) && i <= j < |run|
    ensures run[i].models.Some? ==> run[j].models.Some?
    ensures run[i].published <= run[j].published
  {
    if i < j {
      NeverUnlearned(run, i, j - 1);
      RunKeeps(run, j - 1);
      assert Next(run[j - 1], run[j]);
      var e, now :| run[j - 1].clock <= now && Enabled(run[j - 1], e) && run[j] == Apply(run[j - 1], e, now);
      ApplyKeeps(run[j - 1], e, now);
    }
  }

  // ---- The guard ----

  datatype Route = Serve | ApiKeyOnly | Reject

  /** How a requested model is routed, given what the subscription tiers serve, whether
      any API key is loaded and the catalog as the request found it. */
  method GuardCodexModel(model: string, strip: string -> string, oauth: Names, apiKeys: bool, catalog: Option<Names>)
    returns (route: Route)
    ensures route == Routed(model, strip, oauth, apiKeys, catalog)
  {
    if model == "" || model == "unknown" {
      return Serve;
    }
    var ok := CodexModelServable(model, strip, oauth);
    if ok {
      return Serve;
    }
    if !apiKeys {
      return Reject;
    }
    if catalog.None? {
      return ApiKeyOnly;
    }
    ok := CodexModelServable(model, strip, catalog.value);
    route := if ok then ApiKeyOnly else Reject;
  }

  ghost function Routed(model: string, strip: string -> string, oauth: Names, apiKeys: bool, catalog: Option<Names>): Route {
    if model == "" || model == "unknown" || ListedUnder(model, strip, oauth) then Serve
    else if !apiKeys then Reject
    else if catalog.None? || ListedUnder(model, strip, catalog.value) then ApiKeyOnly
    else Reject
  }

  /** A union holds nothing but what some answer lists. */
  lemma {:induction false} FromUnion(answers: seq<Names>, name: string)
    requires name in Union(answers)
    ensures exists k :: 0 <= k < |answers| && name in answers[k]
  {
    var n := |answers| - 1;
    if name !in answers[n] {
      FromUnion(answers[..n], name);
      var k :| 0 <= k < n && name in answers[..n][k];
      assert name in answers[k];
    }
  }

  /** Nothing that is listed is refused, and with API keys loaded nothing is refused before
      their catalog was fetched. */
  lemma ListedIsRouted(model: string, strip: string -> string, oauth: Names, apiKeys: bool, catalog: Option<Names>)
    ensures model in oauth || model == "" || model == "unknown" ==> Routed(model, strip, oauth, apiKeys, catalog) == Serve
    ensures apiKeys && (catalog.None? || model in catalog.value) ==> Routed(model, strip, oauth, apiKeys, catalog) != Reject
    ensures Routed(model, strip, oauth, apiKeys, catalog) == ApiKeyOnly ==> apiKeys && !ListedUnder(model, strip, oauth)
  {
  }

  lemma {:induction false} InUnion(answers: seq<Names>, k: nat, name: string)
    requires k < |answers| && name in answers[k]
    ensures name in Union(answers)
  {
    if k < |answers| - 1 {
      InUnion(answers[..|answers| - 1], k, name);
    }
  }

  /** A refusal is grounded: no subscription tier lists any name of the model,
      and where API keys exist there is a round that every one of them answered and in
      which none of them listed it. */
  lemma RejectionIsGrounded(run: seq<Catalog>, i: nat, model: string, strip: string -> string, oauth: Names, apiKeys: bool)
    requires Run(run) && i < |run|
    requires Routed(model, strip, oauth, apiKeys, run[i].models) == Reject
    ensures !ListedUnder(model, strip, oauth)
    ensures apiKeys ==>
              exists r :: r in run[i].published && Complete(r)
                          && forall k :: 0 <= k < |r.answers| ==> !ListedUnder(model, strip, r.answers[k])
  {
    if apiKeys {
      RunKeeps(run, i);
      var r := run[i].published[|run[i].published| - 1];
      assert r in run[i].published;
      forall k | 0 <= k < |r.answers|
        ensures !ListedUnder(model, strip, r.answers[k])
      {
        if ListedUnder(model, strip, r.answers[k]) {
          var c :| c in r.answers[k] && (c == model || Variant(BaseName(model, strip), c));
          InUnion(r.answers, k, c);
        }
      }
    }
  }
}
