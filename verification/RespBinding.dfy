/** Which account a response came from: an expiring map with one name space per group of
    credentials, and a sweep that cleans up behind it. Times are in nanoseconds. */
module RespBinding {
  import opened Common

  const DEFAULT_TTL: int := 3600 * 1_000_000_000
  const BAR := '|'

  datatype Entry = Entry(authId: string, exp: int)

  /** One call on the store, at the time it was made. */
  datatype Op =
    | Bind(group: string, resp: string, authId: string, at: int)
    | Get(group: string, resp: string, at: int)
    | Sweep(at: int)

  function Key(group: string, resp: string): string {
    group + [BAR] + resp
  }

  predicate Binds(op: Op) {
    op.Bind? && op.resp != "" && op.authId != ""
  }

  // ---- The ideal map: every binding ever made, by group and response ----

  function LastBind(ops: seq<Op>, group: string, resp: string): Option<Op> {
    if ops == [] then None
    else
      var op := ops[|ops| - 1];
      if Binds(op) && op.group == group && op.resp == resp then Some(op)
      else LastBind(ops[..|ops| - 1], group, resp)
  }

  /** The account of a binding that has not expired. */
  function Live(ttl: int, last: Option<Op>, now: int): Option<string>
    requires last.Some? ==> last.value.Bind?
  {
    if last.Some? && now <= last.value.at + ttl then Some(last.value.authId) else None
  }

  lemma {:induction false} LastBindBinds(ops: seq<Op>, group: string, resp: string)
    ensures
      var last := LastBind(ops, group, resp);
      last.Some? ==> Binds(last.value) && last.value.group == group && last.value.resp == resp && last.value in ops
  {
    if ops != [] {
      LastBindBinds(ops[..|ops| - 1], group, resp);
    }
  }

  /** What the ideal map would answer to every Get of a run. It takes no notice of sweeps. */
  function Answers(ttl: int, ops: seq<Op>): seq<Option<string>> {
    if ops == [] then []
    else
      var before, op := ops[..|ops| - 1], ops[|ops| - 1];
      if !op.Get? then Answers(ttl, before)
      else
        LastBindBinds(before, op.group, op.resp);
        Answers(ttl, before) + [Live(ttl, LastBind(before, op.group, op.resp), op.at)]
  }

  lemma {:induction false} LastBindSkips(ops: seq<Op>, later: seq<Op>, group: string, resp: string)
    requires forall i :: 0 <= i < |later| ==>
               !(later[i].Bind? && later[i].group == group && later[i].resp == resp && later[i].authId != "")
    ensures LastBind(ops + later, group, resp) == LastBind(ops, group, resp)
  {
    if later == [] {
      assert ops + later == ops;
    } else {
      assert (ops + later)[..|ops + later| - 1] == ops + later[..|later| - 1];
      LastBindSkips(ops, later[..|later| - 1], group, resp);
    }
  }

  /** The ideal map, call by call: a binding of a response to an account answers every Get of
      that very pair until its time to live has passed, that instant included, unless another
      binding of the pair came in between. */
  lemma AnswersUntilExpiry(ttl: int, before: seq<Op>, bind: Op, between: seq<Op>, get: Op)
    requires bind.Bind? && get.Get? && get.group == bind.group && get.resp == bind.resp
    requires bind.resp != "" && bind.authId != ""
    requires forall i :: 0 <= i < |between| ==>
               !(between[i].Bind? && between[i].group == bind.group && between[i].resp == bind.resp && between[i].authId != "")
    ensures var earlier := before + [bind] + between;
            Answers(ttl, earlier + [get]) ==
            Answers(ttl, earlier) + [if get.at <= bind.at + ttl then Some(bind.authId) else None]
  {
    var earlier := before + [bind] + between;
    assert (earlier + [get])[..|earlier|] == earlier && (before + [bind])[..|before|] == before;
    LastBindSkips(before + [bind], between, bind.group, bind.resp);
  }

  /** And a pair never bound, or bound to nothing, has no answer. */
  lemma UnboundHasNoAnswer(ttl: int, ops: seq<Op>, get: Op)
    requires get.Get?
    requires get.resp == "" || forall i :: 0 <= i < |ops| ==>
               !(ops[i].Bind? && ops[i].group == get.group && ops[i].resp == get.resp && ops[i].authId != "")
    ensures Answers(ttl, ops + [get]) == Answers(ttl, ops) + [None]
  {
    assert (ops + [get])[..|ops|] == ops;
    if get.resp != "" {
      LastBindSkips([], ops, get.group, get.resp);
      assert [] + ops == ops;
    } else {
      LastBindBinds(ops, get.group, get.resp);
    }
  }

  // ---- The same under the store's flattened keys ----

  function LastUnder(ops: seq<Op>, key: string): Option<Op> {
    if ops == [] then None
    else
      var op := ops[|ops| - 1];
      if Binds(op) && Key(op.group, op.resp) == key then Some(op) else LastUnder(ops[..|ops| - 1], key)
  }

  lemma {:induction false} LastUnderBinds(ops: seq<Op>, key: string)
    ensures
      var last := LastUnder(ops, key);
      last.Some? ==> Binds(last.value) && Key(last.value.group, last.value.resp) == key
  {
    if ops != [] {
      LastUnderBinds(ops[..|ops| - 1], key);
    }
  }

  function KeyedAnswers(ttl: int, ops: seq<Op>): seq<Option<string>> {
    if ops == [] then []
    else
      var before, op := ops[..|ops| - 1], ops[|ops| - 1];
      if !op.Get? then KeyedAnswers(ttl, before)
      else KeyedAnswers(ttl, before) + [KeyedAnswer(ttl, before, op.group, op.resp, op.at)]
  }

  function KeyedAnswer(ttl: int, ops: seq<Op>, group: string, resp: string, now: int): Option<string> {
    LastUnderBinds(ops, Key(group, resp));
    if resp == "" then None else Live(ttl, LastUnder(ops, Key(group, resp)), now)
  }

  /** A key holds its last binding, unless a sweep found that binding expired. */
  ghost predicate Tracks(entries: map<string, Entry>, ttl: int, ops: seq<Op>, swept: Option<int>, key: string) {
    var last := LastUnder(ops, key);
    if key in entries then last.Some? && last.value.Bind? && entries[key] == Entry(last.value.authId, last.value.at + ttl)
    else last.Some? ==> last.value.Bind? && swept.Some? && swept.value > last.value.at + ttl
  }

  lemma TracksQuietly(entries: map<string, Entry>, ttl: int, ops: seq<Op>, swept: Option<int>, op: Op)
    requires forall key :: Tracks(entries, ttl, ops, swept, key)
    requires !Binds(op)
    ensures forall key :: Tracks(entries, ttl, ops + [op], swept, key)
  {
    forall key
      ensures Tracks(entries, ttl, ops + [op], swept, key)
    {
      assert Tracks(entries, ttl, ops, swept, key);
      UnderSnoc(ops, op, key);
    }
  }

  lemma TracksBind(entries: map<string, Entry>, ttl: int, ops: seq<Op>, swept: Option<int>, op: Op, more: map<string, Entry>)
    requires forall key :: Tracks(entries, ttl, ops, swept, key)
    requires Binds(op) && more == entries[Key(op.group, op.resp) := Entry(op.authId, op.at + ttl)]
    ensures forall key :: Tracks(more, ttl, ops + [op], swept, key)
  {
    forall key
      ensures Tracks(more, ttl, ops + [op], swept, key)
    {
      assert Tracks(entries, ttl, ops, swept, key);
      UnderSnoc(ops, op, key);
    }
  }

  lemma TracksDrop(entries: map<string, Entry>, ttl: int, ops: seq<Op>, now: int, k: string)
    requires forall key :: Tracks(entries, ttl, ops, Some(now), key)
    requires k in entries && now > entries[k].exp
    ensures forall key :: Tracks(entries - {k}, ttl, ops, Some(now), key)
  {
    forall key
      ensures Tracks(entries - {k}, ttl, ops, Some(now), key)
    {
      assert Tracks(entries, ttl, ops, Some(now), key);
    }
  }

  lemma TracksLater(entries: map<string, Entry>, ttl: int, ops: seq<Op>, swept: Option<int>, now: int)
    requires forall key :: Tracks(entries, ttl, ops, swept, key)
    requires swept.Some? ==> swept.value <= now
    ensures forall key :: Tracks(entries, ttl, ops, Some(now), key)
  {
    forall key
      ensures Tracks(entries, ttl, ops, Some(now), key)
    {
      assert Tracks(entries, ttl, ops, swept, key);
    }
  }

  class Store {
    var entries: map<string, Entry>
    const ttl: int
    ghost var ops: seq<Op>          // every call so far
    ghost var swept: Option<int>    // the latest sweep

    ghost predicate Valid()
      reads this
    {
      forall key :: Tracks(entries, ttl, ops, swept, key)
    }

    constructor (ttl: int)
      ensures Valid() && ops == [] && swept == None
      ensures this.ttl > 0 && (ttl > 0 ==> this.ttl == ttl)
    {
      this.ttl := if ttl <= 0 then DEFAULT_TTL else ttl;
      entries, ops, swept := map[], [], None;
    }

    method Bind(group: string, resp: string, authId: string, now: int)
      requires Valid()
      modifies this
      ensures Valid() && ops == old(ops) + [Op.Bind(group, resp, authId, now)] && swept == old(swept)
    {
      hide Tracks, Key;
      ghost var op := Op.Bind(group, resp, authId, now);
      if Binds(op) {
        TracksBind(entries, ttl, ops, swept, op, entries[Key(group, resp) := Entry(authId, now + ttl)]);
      } else {
        TracksQuietly(entries, ttl, ops, swept, op);
      }
      ops := ops + [op];
      if resp == "" || authId == "" {
        return;
      }
      entries := entries[Key(group, resp) := Entry(authId, now + ttl)];
    }

    method Get(group: string, resp: string, now: int) returns (authId: Option<string>)
      requires Valid() && (swept.Some? ==> swept.value <= now)
      modifies `ops
      ensures Valid() && ops == old(ops) + [Op.Get(group, resp, now)]
      ensures authId == KeyedAnswer(ttl, old(ops), group, resp, now)
    {
      hide Key;
      TracksQuietly(entries, ttl, ops, swept, Op.Get(group, resp, now));
      assert Tracks(entries, ttl, ops, swept, Key(group, resp));
      ops := ops + [Op.Get(group, resp, now)];
      if resp == "" {
        return None;
      }
      if Key(group, resp) !in entries {
        return None;
      }
      var e := entries[Key(group, resp)];
      if now > e.exp {
        return None;
      }
      return Some(e.authId);
    }

    method Sweep(now: int)
      requires Valid() && (swept.Some? ==> swept.value <= now)
      modifies this
      ensures Valid() && ops == old(ops) + [Op.Sweep(now)] && swept == Some(now)
      ensures entries == map k | k in old(entries) && now <= old(entries)[k].exp :: old(entries)[k]
    {
      hide Tracks;
      ghost var op := Op.Sweep(now);
      TracksQuietly(entries, ttl, ops, swept, op);
      TracksLater(entries, ttl, ops + [op], swept, now);
      ops, swept := ops + [op], Some(now);
      var left := entries.Keys;
      while left != {}
        invariant Valid() && left <= entries.Keys && ops == old(ops) + [op] && swept == Some(now)
        invariant forall k :: k in entries ==> k in old(entries) && entries[k] == old(entries)[k]
        invariant forall k :: k in old(entries) && (k in left || now <= old(entries)[k].exp) ==> k in entries
        invariant forall k :: k in entries && k !in left ==> now <= entries[k].exp
        decreases left
      {
        var k :| k in left;
        if now > entries[k].exp {
          TracksDrop(entries, ttl, ops, now, k);
          entries := entries - {k};
        }
        left := left - {k};
      }
    }
  }

  lemma UnderSnoc(ops: seq<Op>, op: Op, key: string)
    ensures LastUnder(ops + [op], key) == if Binds(op) && Key(op.group, op.resp) == key then Some(op) else LastUnder(ops, key)
  {
    assert (ops + [op])[..|ops|] == ops;
  }

  /** No answer and no sweep comes with a stamp older than an earlier sweep's. Bindings may. */
  predicate Timely(ops: seq<Op>) {
    forall i, j :: 0 <= i <= j < |ops| && ops[i].Sweep? && !ops[j].Bind? ==> ops[i].at <= ops[j].at
  }

  /** Runs a store through any such calls. What it answers is a function of the bindings
      alone: sweeps are unobservable. */
  method Run(ttl: int, ops: seq<Op>) returns (answers: seq<Option<string>>, life: int)
    requires Timely(ops)
    ensures life > 0 && (ttl > 0 ==> life == ttl)
    ensures answers == KeyedAnswers(life, ops)
  {
    var store := new Store(ttl);
    life, answers := store.ttl, [];
    for i := 0 to |ops|
      invariant fresh(store) && store.Valid() && store.ttl == life
      invariant store.ops == ops[..i]
      invariant store.swept.Some? ==> exists j :: 0 <= j < i && ops[j].Sweep? && ops[j].at == store.swept.value
      invariant answers == KeyedAnswers(life, ops[..i])
    {
      assert ops[..i + 1] == ops[..i] + [ops[i]];
      KeyedSnoc(life, ops[..i], ops[i]);
      match ops[i] {
        case Bind(g, r, a, at) => store.Bind(g, r, a, at);
        case Get(g, r, at) =>
          var answer := store.Get(g, r, at);
          answers := answers + [answer];
        case Sweep(at) => store.Sweep(at);
      }
    }
    assert ops[..|ops|] == ops;
  }

  lemma KeyedSnoc(ttl: int, ops: seq<Op>, op: Op)
    ensures KeyedAnswers(ttl, ops + [op]) ==
      KeyedAnswers(ttl, ops) + if op.Get? then [KeyedAnswer(ttl, ops, op.group, op.resp, op.at)] else []
  {
    assert (ops + [op])[..|ops|] == ops;
  }

  // ---- When the flattened keys keep groups apart ----

  /** Group b is group a with something more after a bar, which response a begins with. */
  ghost predicate Reaches(a: string, ra: string, b: string, rb: string) {
    exists x: string :: b == a + [BAR] + x && ra == x + [BAR] + rb
  }

  /** Two pairs share a key exactly when they are the same pair or one's group swallows a
      bar of the other's response. */
  lemma KeyCollision(a: string, ra: string, b: string, rb: string)
    ensures Key(a, ra) == Key(b, rb) <==> (a == b && ra == rb) || Reaches(a, ra, b, rb) || Reaches(b, rb, a, ra)
  {
    if Key(a, ra) == Key(b, rb) {
      if |a| < |b| {
        Swallow(a, ra, b, rb);
      } else if |b| < |a| {
        Swallow(b, rb, a, ra);
      } else {
        assert a == Key(a, ra)[..|a|] && b == Key(b, rb)[..|a|];
        assert ra == Key(a, ra)[|a| + 1..] && rb == Key(b, rb)[|a| + 1..];
      }
    } else {
      NotReached(a, ra, b, rb);
      NotReached(b, rb, a, ra);
    }
  }

  lemma Swallow(a: string, ra: string, b: string, rb: string)
    requires Key(a, ra) == Key(b, rb) && |a| < |b|
    ensures Reaches(a, ra, b, rb)
  {
    var k := Key(a, ra);
    var x := b[|a| + 1..];
    assert b == k[..|b|] && a == k[..|a|] && k[|a|] == BAR && k[|b|] == BAR;
    assert b == a + [BAR] + x;
    assert ra == k[|a| + 1..] && rb == k[|b| + 1..];
    assert x == k[|a| + 1..|b|];
    assert ra == x + [BAR] + rb;
  }

  lemma NotReached(a: string, ra: string, b: string, rb: string)
    ensures Reaches(a, ra, b, rb) ==> Key(a, ra) == Key(b, rb)
  {
    if x: string :| b == a + [BAR] + x && ra == x + [BAR] + rb {
      assert Key(a, ra) == a + [BAR] + (x + [BAR] + rb) == (a + [BAR] + x) + [BAR] + rb;
    }
  }

  /** No group's name is another's followed by a bar, as when no name has a bar at all. */
  predicate Isolated(groups: set<string>) {
    forall a, b :: a in groups && b in groups ==> !(a + [BAR] <= b)
  }

  predicate AllFrom(groups: set<string>, ops: seq<Op>) {
    forall i :: 0 <= i < |ops| ==> ops[i].Sweep? || ops[i].group in groups
  }

  lemma BarFreeIsolates(groups: set<string>)
    requires forall g :: g in groups ==> BAR !in g
    ensures Isolated(groups)
  {
    forall a, b | a in groups && b in groups
      ensures !(a + [BAR] <= b)
    {
      BarKept(a, b);
    }
  }

  lemma BarKept(a: string, b: string)
    ensures a + [BAR] <= b ==> BAR in b
  {
    if a + [BAR] <= b {
      assert b[|a|] == BAR;
    }
  }

  lemma {:induction false} KeysKeepApart(groups: set<string>, ops: seq<Op>, group: string, resp: string)
    requires Isolated(groups) && AllFrom(groups, ops) && group in groups
    ensures LastUnder(ops, Key(group, resp)) == LastBind(ops, group, resp)
  {
    if ops != [] {
      var op := ops[|ops| - 1];
      KeysKeepApart(groups, ops[..|ops| - 1], group, resp);
      if op.Bind? {
        KeyCollision(op.group, op.resp, group, resp);
        BarAfter(op.group, op.resp, group, resp);
        BarAfter(group, resp, op.group, op.resp);
      }
    }
  }

  lemma BarAfter(a: string, ra: string, b: string, rb: string)
    ensures Reaches(a, ra, b, rb) ==> a + [BAR] <= b
  {
  }

  /** Among isolated groups the store answers as the ideal map: the last unexpired binding
      of that very group and response, and nothing of another group. */
  lemma {:induction false} RefinesIdeal(ttl: int, groups: set<string>, ops: seq<Op>)
    requires Isolated(groups) && AllFrom(groups, ops)
    ensures KeyedAnswers(ttl, ops) == Answers(ttl, ops)
  {
    if ops != [] {
      var before, op := ops[..|ops| - 1], ops[|ops| - 1];
      RefinesIdeal(ttl, groups, before);
      if op.Get? {
        KeysKeepApart(groups, before, op.group, op.resp);
        LastBindBinds(before, op.group, op.resp);
      }
    }
  }

  /** Group a's name and a bar begin group b's. A caller in a that asks for the rest of b's
      name, a bar and the id of one of b's responses is given b's account. */
  lemma CrossGroupAnswer(ttl: int, a: string, b: string)
    requires ttl > 0 && a + [BAR] <= b
    ensures
      var ops := [Op.Bind(b, "r", "account", 0), Op.Get(a, b[|a| + 1..] + "|r", 0)];
      KeyedAnswers(ttl, ops) == [Some("account")] && Answers(ttl, ops) == [None]
  {
    var x := b[|a| + 1..];
    var bind, get := Op.Bind(b, "r", "account", 0), Op.Get(a, x + "|r", 0);
    assert [bind, get] == [bind] + [get] && [bind, get][..1] == [bind];
    KeyedSnoc(ttl, [bind], get);
    UnderSnoc([], bind, Key(a, x + "|r"));
    assert [] + [bind] == [bind];
    assert b == a + [BAR] + x;
    assert x + "|r" == x + [BAR] + "r";
    NotReached(a, x + "|r", b, "r");
    assert |a| < |b|;
    assert LastBind([bind], a, x + "|r") == None;
    assert Answers(ttl, [bind]) == [];
  }

  /** The store keeps groups apart in every run exactly when their names are isolated. */
  lemma IsolationExactly(ttl: int, groups: set<string>)
    requires ttl > 0
    ensures Isolated(groups) <==> forall ops :: AllFrom(groups, ops) ==> KeyedAnswers(ttl, ops) == Answers(ttl, ops)
  {
    if Isolated(groups) {
      forall ops | AllFrom(groups, ops)
        ensures KeyedAnswers(ttl, ops) == Answers(ttl, ops)
      {
        RefinesIdeal(ttl, groups, ops);
      }
    } else {
      var a, b :| a in groups && b in groups && a + [BAR] <= b;
      CrossGroupAnswer(ttl, a, b);
      assert AllFrom(groups, [Op.Bind(b, "r", "account", 0), Op.Get(a, b[|a| + 1..] + "|r", 0)]);
    }
  }
}
