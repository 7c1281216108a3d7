/** What a request is billed at, and the gate that keeps an opted-out token away from
    upstream keys that would bill it more. Money and multipliers are exact reals. */
module PriceGate {
  import opened Common

  datatype Promotion = Promotion(provider: string, multiplier: real, start: Option<int>, end: Option<int>)

  datatype Group = Group(claude: real, codex: real)

  /** A pooled credential: price is its own multiplier, None once it left the pool. */
  datatype Credential = Credential(provider: string, group: string, apiKey: bool, disabled: bool, price: Option<real>)

  /** Prices at one instant: the promotions, the clock, the provider-name normaliser, the
      rounding of a charge, the pool, and which credentials the pool gives to the clients of
      a credential group. */
  datatype Market = Market(
    promotions: seq<Promotion>,
    now: int,
    normalize: string -> string,
    quantize: real -> real,
    pool: seq<Credential>,
    gives: (string, Credential) -> bool)

  predicate Covers(p: Promotion, provider: string, now: int) {
    && p.provider == provider && p.multiplier > 0.0
    && p.start.Some? && p.end.Some? && p.start.value < p.end.value
    && p.start.value <= now < p.end.value
  }

  /** The cheapest of the promotions in force. */
  function PromoRate(promotions: seq<Promotion>, provider: string, now: int): Option<real> {
    if promotions == [] then None
    else
      var before, p := PromoRate(promotions[..|promotions| - 1], provider, now), promotions[|promotions| - 1];
      if !Covers(p, provider, now) then before
      else if before.None? || p.multiplier < before.value then Some(p.multiplier)
      else before
  }

  method PromoFor(m: Market, provider: string) returns (best: real, found: bool)
    ensures found <==> PromoRate(m.promotions, m.normalize(provider), m.now).Some?
    ensures found ==> PromoRate(m.promotions, m.normalize(provider), m.now) == Some(best)
  {
    var want := m.normalize(provider);
    best, found := 0.0, false;
    for i := 0 to |m.promotions|
      invariant PromoRate(m.promotions[..i], want, m.now) == if found then Some(best) else None
    {
      var p := m.promotions[i];
      assert m.promotions[..i + 1][..i] == m.promotions[..i];
      if p.multiplier <= 0.0 || !Covers(p, want, m.now) {
        continue;
      }
      if !found || p.multiplier < best {
        best, found := p.multiplier, true;
      }
    }
    assert m.promotions[..|m.promotions|] == m.promotions;
  }

  /** The rate found is the least of those in force, and there is none only when no
      promotion covers the instant. */
  lemma {:induction false} PromoIsCheapest(promotions: seq<Promotion>, provider: string, now: int)
    ensures var r := PromoRate(promotions, provider, now);
            && (r.None? <==> forall p :: p in promotions ==>
                  !(p.provider == provider && p.multiplier > 0.0 && p.start.Some? && p.end.Some? && p.start.value <= now < p.end.value))
            && (r.Some? ==>
                  && r.value > 0.0
                  && (exists p :: p in promotions && Covers(p, provider, now) && p.multiplier == r.value)
                  && forall p :: p in promotions && Covers(p, provider, now) ==> r.value <= p.multiplier)
  {
    if promotions != [] {
      var before, p := promotions[..|promotions| - 1], promotions[|promotions| - 1];
      PromoIsCheapest(before, provider, now);
      assert promotions == before + [p];
    }
  }

  function MultiplierFor(g: Group, provider: string): real {
    if provider == "openai" || provider == "codex" then g.codex else g.claude
  }

  /** Promotion over per-key override over pricing group. */
  function EffectiveMultiplier(m: Market, g: Group, provider: string, override: real): real {
    var promo := PromoRate(m.promotions, m.normalize(provider), m.now);
    if promo.Some? then promo.value
    else if override > 0.0 then override
    else MultiplierFor(g, provider)
  }

  /** A non-positive multiplier bills at the official price. */
  function Rate(multiplier: real): real {
    if multiplier <= 0.0 then 1.0 else multiplier
  }

  function ChargeFromOfficial(m: Market, official: real, multiplier: real): real {
    m.quantize(official * Rate(multiplier))
  }

  ghost predicate Monotone(quantize: real -> real) {
    forall x, y :: x <= y ==> quantize(x) <= quantize(y)
  }

  /** A live key of the provider, of whatever credential group. */
  predicate Reachable(m: Market, provider: string, c: Credential) {
    c.apiKey && !c.disabled && c.price.Some? && m.normalize(c.provider) == m.normalize(provider)
  }

  /** The token's group, None when its wallet or group cannot be read. */
  method ApiKeyFallbackWouldCostMore(m: Market, group: Option<Group>, provider: string) returns (more: bool)
    ensures more == WouldCostMore(m, group, provider)
  {
    var rate, promo := PromoFor(m, provider);
    if promo {
      return false;
    }
    if group.None? {
      return true;
    }
    var groupMult := MultiplierFor(group.value, provider);
    for i := 0 to |m.pool|
      invariant forall j :: 0 <= j < i ==> !(Reachable(m, provider, m.pool[j]) && Dearer(m.pool[j], groupMult))
    {
      var c := m.pool[i];
      if m.normalize(c.provider) != m.normalize(provider) || !c.apiKey || c.disabled {
        continue;
      }
      if c.price.None? {
        continue;
      }
      var price := c.price.value;
      if price > 0.0 && price > groupMult {
        assert c in m.pool && Reachable(m, provider, c) && Dearer(c, groupMult);
        return true;
      }
    }
    return false;
  }

  /** The comparison the gate makes. */
  predicate Dearer(c: Credential, groupMult: real) {
    c.price.Some? && c.price.value > 0.0 && c.price.value > groupMult
  }

  predicate WouldCostMore(m: Market, group: Option<Group>, provider: string) {
    && PromoRate(m.promotions, m.normalize(provider), m.now).None?
    && (group.None? || exists c :: c in m.pool && Reachable(m, provider, c) && Dearer(c, MultiplierFor(group.value, provider)))
  }

  /** A token's stance: unknown tokens and those that never opted out always fall back. */
  datatype Stance = UnknownToken | OptedIn | OptedOut

  /** billing and saas tell whether either is configured at all. */
  method AllowApiKeyFallback(m: Market, billing: bool, saas: bool, stance: Stance, group: Option<Group>, provider: string)
    returns (allow: bool)
    ensures !allow <==> billing && saas && stance == OptedOut && WouldCostMore(m, group, provider)
  {
    if !billing {
      return true;
    }
    if stance == UnknownToken {
      return true;
    }
    if stance == OptedIn {
      return true;
    }
    if !saas {
      return true;
    }
    var more := ApiKeyFallbackWouldCostMore(m, group, provider);
    return !more;
  }

  /** What a key's own price adds to the bill's precedence: API keys only. */
  function ApiKeyPriceOverride(c: Credential): real {
    if c.apiKey && c.price.Some? then c.price.value else 0.0
  }

  /** The bill, figure by figure: the official price times the rate of the cheapest running
      promotion, else the key's own multiplier if it has one, else the pricing group's for
      this provider, and never a multiplier that is not positive. */
  lemma ChargeMeans(m: Market, g: Group, provider: string, c: Credential, official: real) returns (rate: real)
    ensures
      var own := if provider == "openai" || provider == "codex" then g.codex else g.claude;
      var promo := PromoRate(m.promotions, m.normalize(provider), m.now);
      rate == if promo.Some? then promo.value
              else if c.apiKey && c.price.Some? && c.price.value > 0.0 then c.price.value
              else if own > 0.0 then own
              else 1.0
    ensures ChargeFromOfficial(m, official, EffectiveMultiplier(m, g, provider, ApiKeyPriceOverride(c))) == m.quantize(official * rate)
  {
    PromoIsCheapest(m.promotions, m.normalize(provider), m.now);
    hide PromoRate;
    var multiplier := EffectiveMultiplier(m, g, provider, ApiKeyPriceOverride(c));
    rate := Rate(multiplier);
    ChargeIs(m, official, multiplier, rate);
  }

  lemma ChargeIs(m: Market, official: real, multiplier: real, rate: real)
    requires rate == if multiplier > 0.0 then multiplier else 1.0
    ensures ChargeFromOfficial(m, official, multiplier) == m.quantize(official * rate)
  {
    assert official * rate == official * Rate(multiplier);
  }

  /** What turns a client away, figure by figure: no promotion runs, and its group cannot be
      read or some live key of the provider is priced above the group's own multiplier. */
  lemma RefusedMeans(m: Market, group: Option<Group>, provider: string)
    ensures WouldCostMore(m, group, provider) <==>
            && PromoRate(m.promotions, m.normalize(provider), m.now).None?
            && (group.Some? ==> exists k :: 0 <= k < |m.pool| && PricedAbove(m, m.pool[k], group.value, provider))
  {
    if group.Some? && exists k :: 0 <= k < |m.pool| && PricedAbove(m, m.pool[k], group.value, provider) {
      var k :| 0 <= k < |m.pool| && PricedAbove(m, m.pool[k], group.value, provider);
      assert m.pool[k] in m.pool && Reachable(m, provider, m.pool[k]);
    }
  }

  /** A live key of the provider with a multiplier of its own above the group's. */
  predicate PricedAbove(m: Market, c: Credential, g: Group, provider: string) {
    && c.apiKey && !c.disabled && m.normalize(c.provider) == m.normalize(provider)
    && c.price.Some? && c.price.value > 0.0
    && c.price.value > if provider == "openai" || provider == "codex" then g.codex else g.claude
  }

  /** Fallback never costs more: at one instant, if the gate lets an opted-out token
      through, no key it can land on charges above what the token pays without a key. */
  lemma FallbackNeverCostsMore(m: Market, g: Group, provider: string, c: Credential, official: real)
    requires Monotone(m.quantize) && official >= 0.0
    requires !WouldCostMore(m, Some(g), provider)
    requires c in m.pool && Reachable(m, provider, c)
    ensures ChargeFromOfficial(m, official, EffectiveMultiplier(m, g, provider, ApiKeyPriceOverride(c)))
            <= ChargeFromOfficial(m, official, EffectiveMultiplier(m, g, provider, 0.0))
  {
    var key := EffectiveMultiplier(m, g, provider, ApiKeyPriceOverride(c));
    var own := EffectiveMultiplier(m, g, provider, 0.0);
    assert !Dearer(c, MultiplierFor(g, provider)) || PromoRate(m.promotions, m.normalize(provider), m.now).Some?;
    assert Rate(key) <= Rate(own);
    assert official * Rate(key) <= official * Rate(own);
  }

  /** A key the pool could really give to a client of this credential group. */
  predicate Givable(m: Market, client: string, provider: string, c: Credential) {
    Reachable(m, provider, c) && m.gives(client, c)
  }

  /** Whether some key the client could be given is priced above what it pays now. */
  predicate SomeGivenKeyDearer(m: Market, client: string, g: Group, provider: string) {
    exists c :: c in m.pool && Givable(m, client, provider, c)
      && Rate(EffectiveMultiplier(m, g, provider, ApiKeyPriceOverride(c))) > Rate(EffectiveMultiplier(m, g, provider, 0.0))
  }

  /** Some key of the provider has a multiplier above the bound. */
  predicate SomeKeyAbove(m: Market, provider: string, bound: real) {
    exists c :: c in m.pool && Reachable(m, provider, c) && c.price.value > bound
  }

  predicate SomeGivenKeyAbove(m: Market, client: string, provider: string, bound: real) {
    exists c :: c in m.pool && Givable(m, client, provider, c) && c.price.value > bound
  }

  function AtLeastZero(x: real): real { if x < 0.0 then 0.0 else x }

  /** The gate is documented to refuse only when a key would cost the client more. It looks
      at every key of the provider, so for any group whatever that is so exactly when a
      promotion runs, no key of the provider is priced above the group, or one that the
      client could be given is priced above what the group bills at. */
  lemma GateIsExactUnless(m: Market, client: string, g: Group, provider: string)
    ensures WouldCostMore(m, Some(g), provider) == SomeGivenKeyDearer(m, client, g, provider) <==>
            || PromoRate(m.promotions, m.normalize(provider), m.now).Some?
            || !SomeKeyAbove(m, provider, AtLeastZero(MultiplierFor(g, provider)))
            || SomeGivenKeyAbove(m, client, provider, Rate(MultiplierFor(g, provider)))
    ensures SomeGivenKeyDearer(m, client, g, provider) ==> WouldCostMore(m, Some(g), provider)
  {
    var own := MultiplierFor(g, provider);
    PromoIsCheapest(m.promotions, m.normalize(provider), m.now);
    if PromoRate(m.promotions, m.normalize(provider), m.now).None? {
      forall c | c in m.pool && Reachable(m, provider, c)
        ensures Dearer(c, own) <==> c.price.value > AtLeastZero(own)
        ensures Rate(EffectiveMultiplier(m, g, provider, ApiKeyPriceOverride(c))) > Rate(EffectiveMultiplier(m, g, provider, 0.0))
                <==> c.price.value > Rate(own)
      {
      }
    }
  }

  // ---- The groups a token can have ----

  const DEFAULT_CLAUDE := 0.05
  const DEFAULT_CODEX := 0.02
  const DEFAULT_GROUP: nat := 1

  /** What is stored of the multipliers an operator submits. */
  function Backfilled(g: Group): (r: Group)
    ensures r.claude > 0.0 && r.codex > 0.0
    ensures g.claude > 0.0 ==> r.claude == g.claude
    ensures g.codex > 0.0 ==> r.codex == g.codex
  {
    Group(if g.claude <= 0.0 then DEFAULT_CLAUDE else g.claude, if g.codex <= 0.0 then DEFAULT_CODEX else g.codex)
  }

  datatype Write = CreateGroup(id: nat, g: Group) | UpdateGroup(id: nat, g: Group) | DeleteGroup(id: nat)

  /** One write to the table. A new group gets an unused id, and the default group cannot be
      deleted. */
  function Written(table: map<nat, Group>, w: Write): map<nat, Group> {
    match w
    case CreateGroup(id, g) => if id in table then table else table[id := Backfilled(g)]
    case UpdateGroup(id, g) => if id in table then table[id := Backfilled(g)] else table
    case DeleteGroup(id) => if id == DEFAULT_GROUP then table else table - {id}
  }

  /** The group table after some writes to a fresh installation. */
  function Groups(writes: seq<Write>): map<nat, Group> {
    if writes == [] then map[DEFAULT_GROUP := Group(DEFAULT_CLAUDE, DEFAULT_CODEX)]
    else Written(Groups(writes[..|writes| - 1]), writes[|writes| - 1])
  }

  /** Writes take effect: a new id gets the row submitted, an update replaces the row there is,
      a deletion spares only the default group, and other rows stay. */
  lemma WritesTakeEffect(writes: seq<Write>, id: nat, g: Group, other: nat)
    requires other != id && other in Groups(writes)
    ensures id !in Groups(writes) ==> Groups(writes + [CreateGroup(id, g)]) == Groups(writes)[id := Backfilled(g)]
    ensures id in Groups(writes) ==> Groups(writes + [UpdateGroup(id, g)]) == Groups(writes)[id := Backfilled(g)]
    ensures id !in Groups(writes) ==> Groups(writes + [UpdateGroup(id, g)]) == Groups(writes)
    ensures id in Groups(writes + [DeleteGroup(id)]) <==> id == 1 && id in Groups(writes)
    ensures other in Groups(writes + [DeleteGroup(id)]) && Groups(writes + [DeleteGroup(id)])[other] == Groups(writes)[other]
  {
    GroupsSnoc(writes, CreateGroup(id, g));
    GroupsSnoc(writes, UpdateGroup(id, g));
    GroupsSnoc(writes, DeleteGroup(id));
    hide Groups;
  }

  lemma GroupsSnoc(writes: seq<Write>, w: Write)
    ensures Groups(writes + [w]) == Written(Groups(writes), w)
  {
    assert (writes + [w])[..|writes|] == writes;
  }

  /** No write can store a multiplier that is not positive. */
  lemma {:induction false} StoredPricesArePositive(writes: seq<Write>)
    ensures DEFAULT_GROUP in Groups(writes)
    ensures forall id :: id in Groups(writes) ==> Groups(writes)[id].claude > 0.0 && Groups(writes)[id].codex > 0.0
  {
    if writes != [] {
      StoredPricesArePositive(writes[..|writes| - 1]);
    }
  }

  /** On every group a token can have: the gate's refusal and a dearer key that the client
      could be given coincide exactly when a promotion runs, no key of the provider is priced
      above the group's rate, or a key the client could be given is. */
  lemma {:induction false} GateIsExact(m: Market, client: string, writes: seq<Write>, id: nat, provider: string)
    requires id in Groups(writes)
    ensures var g := Groups(writes)[id];
            WouldCostMore(m, Some(g), provider) == SomeGivenKeyDearer(m, client, g, provider) <==>
            || PromoRate(m.promotions, m.normalize(provider), m.now).Some?
            || !SomeKeyAbove(m, provider, MultiplierFor(g, provider))
            || SomeGivenKeyAbove(m, client, provider, MultiplierFor(g, provider))
  {
    StoredPricesArePositive(writes);
    GateIsExactUnless(m, client, Groups(writes)[id], provider);
  }

  /** For instance: a marked-up key kept for premium clients turns a public client away from
      the public key, which would have billed it what it pays already. */
  lemma OtherGroupsKeyRefuses(m: Market)
    requires m.promotions == []
    requires m.pool == [Credential("openai", "premium", true, false, Some(0.12)), Credential("openai", "", true, false, Some(0.0))]
    requires !m.gives("", m.pool[0]) && m.gives("", m.pool[1])
    ensures var g := Groups([])[DEFAULT_GROUP];
            && WouldCostMore(m, Some(g), "openai")
            && Givable(m, "", "openai", m.pool[1])
            && forall c :: c in m.pool && Givable(m, "", "openai", c) ==>
                 EffectiveMultiplier(m, g, "openai", ApiKeyPriceOverride(c)) == EffectiveMultiplier(m, g, "openai", 0.0)
  {
    var g := Groups([])[DEFAULT_GROUP];
    assert m.pool[0] in m.pool && Reachable(m, "openai", m.pool[0]) && Dearer(m.pool[0], g.codex);
  }
}
