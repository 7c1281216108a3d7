/** Top-up orders: gateway notifications, admin reconciliation, cancellation, the expiry
    sweep and token resets, all racing on one database. A state machine whose steps are the
    single statements and transactions the database executes; what a worker has read may
    be stale by the time it acts. */
module Orders {
  import opened Common

  type Id = string
  type Token = string
  type Tid = nat

  datatype Status = Pending | Paid | Expired | Failed

  /** A top-up is personal when workspace is 0. */
  datatype Order = Order(token: Token, cny: real, usd: real, workspace: nat, created: int, status: Status, tradeNo: string)

  datatype Dest = Wallet(token: Token) | Pool(workspace: nat)

  /** The verified fields of a gateway message; settled is its trade status, amount is
      None when the total does not parse. */
  datatype Notification = Notification(order: Id, tradeNo: string, settled: bool, appId: string, amount: Option<real>)

  datatype Config = Config(appId: string, ttl: int)

  /** A ledger entry. straight tells whether the credit was made out to the token that the
      order's row bore at that moment, or to a pool. */
  datatype Credit = Credit(order: Id, dest: Dest, usd: real, notice: Notification, at: int, straight: bool)

  datatype Result =
    | Credited | AlreadyPaid | NoLongerPending
    | Unknown | Closed | Tampered | TimedOut
    | NotSettled | DbFault

  /** A worker has read the order, has decided to credit what it read, or has an answer. */
  datatype Work =
    | Fetched(n: Notification, seen: Option<Order>)
    | Ready(n: Notification, order: Order, at: int)
    | Finished(n: Notification, result: Result)

  datatype Db = Db(
    orders: map<Id, Order>,
    created: map<Id, Order>,       // every order as it was inserted
    balance: map<Dest, real>,
    adjusted: map<Dest, real>,     // all changes of a balance but top-ups
    credits: seq<Credit>,          // the top-up ledger
    work: map<Tid, Work>)

  datatype Event =
    | Create(id: Id, order: Order)
    | Open(dest: Dest)
    | Adjust(dest: Dest, delta: real)
    | Fetch(t: Tid, n: Notification)
    | FetchFault(t: Tid, n: Notification)
    | Judge(t: Tid, now: int, fault: bool)
    | Commit(t: Tid, fault: bool)
    | Cancel(id: Id, token: Token)
    | Sweep(cutoff: int)
    | Rekey(from: Token, to: Token)

  function DestOf(o: Order): Dest {
    if o.workspace > 0 then Pool(o.workspace) else Wallet(o.token)
  }

  function Abs(x: real): real { if x < 0.0 then -x else x }

  predicate SameMoney(a: real, b: real) { Abs(a - b) < 0.005 }

  predicate Mismatched(cfg: Config, n: Notification, o: Order) {
    || (cfg.appId != "" && n.appId != "" && n.appId != cfg.appId)
    || n.amount.None?
    || !SameMoney(n.amount.value, o.cny)
  }

  predicate PastTtl(cfg: Config, o: Order, now: int) {
    cfg.ttl > 0 && now - o.created > cfg.ttl
  }

  /** What the notification funnel does with the order it read: return at once, expire
      it, or try to credit it. */
  datatype Decision = Return(result: Result) | Expire | TryCredit

  function Decide(cfg: Config, n: Notification, o: Order, now: int): Decision {
    if o.status == Paid then Return(AlreadyPaid)
    else if o.status == Expired || o.status == Failed then Return(Closed)
    else if !n.settled then Return(NotSettled)
    else if cfg.appId != "" && n.appId != "" && n.appId != cfg.appId then Return(Tampered)
    else if n.amount.None? then Return(Tampered)
    else if !SameMoney(n.amount.value, o.cny) then Return(Tampered)
    else if PastTtl(cfg, o, now) then Expire
    else TryCredit
  }

  predicate StillPending(s: Db, id: Id) {
    id in s.orders && s.orders[id].status == Pending
  }

  function EnsureWallet(s: Db, dest: Dest): Db {
    if dest.Wallet? && dest !in s.balance
    then s.(balance := s.balance[dest := 0.0], adjusted := s.adjusted[dest := 0.0])
    else s
  }

  function MarkOrderExpired(s: Db, id: Id): Db {
    if StillPending(s, id) then s.(orders := s.orders[id := s.orders[id].(status := Expired)]) else s
  }

  /** The checks of the funnel on the order read, up to the wallet being opened; fault is a
      database error in the one write made. */
  function Judged(cfg: Config, s: Db, n: Notification, seen: Option<Order>, now: int, fault: bool): (Db, Work) {
    match seen
    case None => (s, Finished(n, Unknown))
    case Some(o) =>
      match Decide(cfg, n, o, now)
      case Return(result) => (s, Finished(n, result))
      case Expire => (if fault then s else MarkOrderExpired(s, n.order), Finished(n, TimedOut))
      case TryCredit => if fault then (s, Finished(n, DbFault)) else (EnsureWallet(s, DestOf(o)), Ready(n, o, now))
  }

  /** The crediting transaction, on the terms that were read. */
  function CreditPaidOrder(s: Db, n: Notification, o: Order, at: int): (Db, Result) {
    var dest := DestOf(o);
    if !StillPending(s, n.order) then (s, NoLongerPending)
    else if dest !in s.balance then (s, DbFault)
    else
      var row := s.orders[n.order];
      (s.(orders := s.orders[n.order := row.(status := Paid, tradeNo := n.tradeNo)],
          balance := s.balance[dest := s.balance[dest] + o.usd],
          credits := s.credits + [Credit(n.order, dest, o.usd, n, at, o.workspace > 0 || o.token == row.token)]),
       Credited)
  }

  // ---- A token reset, which moves everything the old token owns ----

  function Renamed(d: Dest, from: Token, to: Token): Dest {
    if d == Wallet(from) then Wallet(to) else d
  }

  function RenamedOrder(o: Order, from: Token, to: Token): Order {
    if o.token == from then o.(token := to) else o
  }

  function Relabelled(credits: seq<Credit>, from: Token, to: Token): seq<Credit> {
    if credits == [] then []
    else
      var c := credits[|credits| - 1];
      Relabelled(credits[..|credits| - 1], from, to) + [c.(dest := Renamed(c.dest, from, to))]
  }

  function Carried(amounts: map<Dest, real>, from: Token, to: Token): map<Dest, real> {
    if Wallet(from) in amounts then (amounts - {Wallet(from)})[Wallet(to) := amounts[Wallet(from)]] else amounts
  }

  function RekeyToken(s: Db, from: Token, to: Token): Db {
    s.(orders := map id | id in s.orders :: RenamedOrder(s.orders[id], from, to),
       balance := Carried(s.balance, from, to),
       adjusted := Carried(s.adjusted, from, to),
       credits := Relabelled(s.credits, from, to))
  }

  predicate Enabled(s: Db, e: Event) {
    match e
    case Create(id, order) => id !in s.created && order.status == Pending
    case Open(dest) => dest !in s.balance
    case Adjust(dest, _) => dest in s.balance && dest in s.adjusted
    case Fetch(t, _) => t !in s.work
    case FetchFault(t, _) => t !in s.work
    case Judge(t, _, _) => t in s.work && s.work[t].Fetched?
    case Commit(t, _) => t in s.work && s.work[t].Ready?
    case Cancel(id, token) => true
    case Sweep(_) => true
    case Rekey(from, to) => from != to && Wallet(to) !in s.balance
  }

  function Apply(cfg: Config, s: Db, e: Event): Db
    requires Enabled(s, e)
  {
    match e
    case Create(id, order) => s.(orders := s.orders[id := order], created := s.created[id := order])
    case Open(dest) => s.(balance := s.balance[dest := 0.0], adjusted := s.adjusted[dest := 0.0])
    case Adjust(dest, delta) =>
      s.(balance := s.balance[dest := s.balance[dest] + delta], adjusted := s.adjusted[dest := s.adjusted[dest] + delta])
    case Fetch(t, n) =>
      s.(work := s.work[t := Fetched(n, if n.order in s.orders then Some(s.orders[n.order]) else None)])
    case FetchFault(t, n) => s.(work := s.work[t := Finished(n, DbFault)])
    case Judge(t, now, fault) =>
      var w := s.work[t];
      var (after, next) := Judged(cfg, s, w.n, w.seen, now, fault);
      after.(work := after.work[t := next])
    case Commit(t, fault) =>
      var w := s.work[t];
      var (after, result) := if fault then (s, DbFault) else CreditPaidOrder(s, w.n, w.order, w.at);
      after.(work := after.work[t := Finished(w.n, result)])
    case Cancel(id, token) =>
      if StillPending(s, id) && s.orders[id].token == token then s.(orders := s.orders - {id}) else s
    case Sweep(cutoff) =>
      s.(orders := map id | id in s.orders && !(s.orders[id].status == Pending && s.orders[id].created < cutoff) :: s.orders[id])
    case Rekey(from, to) => RekeyToken(s, from, to)
  }

  predicate Init(s: Db) {
    && s.orders == map[] && s.created == map[] && s.credits == [] && s.work == map[]
    && s.balance == s.adjusted
  }

  predicate Run(cfg: Config, run: seq<Db>, events: seq<Event>) {
    && |run| == |events| + 1
    && Init(run[0])
    && forall i :: 0 <= i < |events| ==> Enabled(run[i], events[i]) && run[i + 1] == Apply(cfg, run[i], events[i])
  }

  // ---- What every step keeps ----

  /** What an order is for. The token that owns it is not part of that: a reset replaces it. */
  predicate SameTerms(a: Order, b: Order) {
    a.cny == b.cny && a.usd == b.usd && a.workspace == b.workspace && a.created == b.created
  }

  function Credits(credits: seq<Credit>, id: Id): nat {
    if credits == [] then 0
    else Credits(credits[..|credits| - 1], id) + if credits[|credits| - 1].order == id then 1 else 0
  }

  function Received(credits: seq<Credit>, dest: Dest): real {
    if credits == [] then 0.0
    else Received(credits[..|credits| - 1], dest) + if credits[|credits| - 1].dest == dest then credits[|credits| - 1].usd else 0.0
  }

  /** The order a worker goes by. */
  function Basis(w: Work): Option<Order> {
    match w
    case Fetched(_, seen) => seen
    case Ready(_, order, _) => Some(order)
    case Finished(_, _) => None
  }

  /** What a worker goes by has the order's terms, and if it was settled then, it still is. */
  predicate Grounded(s: Db, n: Notification, o: Order) {
    && n.order in s.created && SameTerms(o, s.created[n.order])
    && (o.status != Pending ==> n.order in s.orders && s.orders[n.order].status == o.status)
  }

  predicate Approved(cfg: Config, w: Work) {
    w.Ready? ==> Decide(cfg, w.n, w.order, w.at) == TryCredit
  }

  predicate OrdersInv(cfg: Config, s: Db) {
    && (forall id :: id in s.orders ==> id in s.created && SameTerms(s.orders[id], s.created[id]))
    && (forall t :: t in s.work && Basis(s.work[t]).Some? ==> Grounded(s, s.work[t].n, Basis(s.work[t]).value))
    && (forall t :: t in s.work ==> Approved(cfg, s.work[t]))
  }

  /** A credit was called for by a settled, matching notification within the order's time
      to live, for the order's own amount; if it went out straight, the entry still stands
      under whatever owns the order now. */
  predicate Warranted(cfg: Config, s: Db, c: Credit) {
    && c.order in s.created && c.order in s.orders && s.orders[c.order].status == Paid
    && c.notice.order == c.order && c.notice.settled
    && !Mismatched(cfg, c.notice, s.created[c.order]) && !PastTtl(cfg, s.created[c.order], c.at)
    && c.usd == s.created[c.order].usd
    && (s.created[c.order].workspace > 0 ==> c.straight)
    && (c.straight ==> c.dest == DestOf(s.orders[c.order]))
  }

  /** A paid order has exactly one credit, any other none. */
  ghost predicate CreditsInv(cfg: Config, s: Db) {
    && (forall i :: 0 <= i < |s.credits| ==> Warranted(cfg, s, s.credits[i]))
    && (forall id :: Credits(s.credits, id) == if id in s.orders && s.orders[id].status == Paid then 1 else 0)
  }

  ghost predicate BalanceInv(s: Db) {
    && s.balance.Keys == s.adjusted.Keys
    && forall d :: Received(s.credits, d) == if d in s.balance then s.balance[d] - s.adjusted[d] else 0.0
  }

  lemma LedgerSnoc(credits: seq<Credit>, c: Credit)
    ensures forall id :: Credits(credits + [c], id) == Credits(credits, id) + if c.order == id then 1 else 0
    ensures forall d :: Received(credits + [c], d) == Received(credits, d) + if c.dest == d then c.usd else 0.0
  {
    assert (credits + [c])[..|credits|] == credits;
  }

  /** A reset renames entries and changes nothing else about them. */
  lemma {:induction false} RelabelledIs(credits: seq<Credit>, from: Token, to: Token)
    requires from != to
    ensures |Relabelled(credits, from, to)| == |credits|
    ensures forall i :: 0 <= i < |credits| ==>
              Relabelled(credits, from, to)[i] == credits[i].(dest := Renamed(credits[i].dest, from, to))
    ensures forall id :: Credits(Relabelled(credits, from, to), id) == Credits(credits, id)
    ensures forall d :: Received(Relabelled(credits, from, to), d) ==
              if d == Wallet(from) then 0.0
              else if d == Wallet(to) then Received(credits, Wallet(from)) + Received(credits, Wallet(to))
              else Received(credits, d)
  {
    if credits != [] {
      var before, c := credits[..|credits| - 1], credits[|credits| - 1];
      RelabelledIs(before, from, to);
      LedgerSnoc(Relabelled(before, from, to), c.(dest := Renamed(c.dest, from, to)));
      hide Credits, Received;
      LedgerSnoc(before, c);
      assert credits == before + [c];
    }
  }

  /** Only the notified order may change, and its terms and token do not. */
  predicate OnlyThisOrder(s: Db, id: Id, t: Db) {
    && t.created == s.created
    && t.orders.Keys == s.orders.Keys
    && (forall other :: other in s.orders && other != id ==> t.orders[other] == s.orders[other])
    && (id in s.orders ==> SameTerms(t.orders[id], s.orders[id]) && t.orders[id].token == s.orders[id].token)
  }

  /** No money moved; at most an empty wallet was opened. */
  ghost predicate Unmoved(s: Db, t: Db) {
    && t.credits == s.credits
    && (|| (t.balance == s.balance && t.adjusted == s.adjusted)
        || exists dest :: dest !in s.balance
             && t.balance == s.balance[dest := 0.0] && t.adjusted == s.adjusted[dest := 0.0])
  }

  /** A judgement moves no money; it may expire the order or leave its worker ready. */
  lemma JudgeShape(cfg: Config, s: Db, n: Notification, seen: Option<Order>, now: int, fault: bool)
    ensures var (t, next) := Judged(cfg, s, n, seen, now, fault);
            && t.work == s.work && OnlyThisOrder(s, n.order, t) && Unmoved(s, t)
            && next.n == n && !next.Fetched? && Approved(cfg, next)
            && (next.Ready? ==> seen == Some(next.order) && t.orders == s.orders)
            && (n.order in s.orders && t.orders[n.order] != s.orders[n.order] ==>
                  StillPending(s, n.order) && t.orders[n.order].status == Expired)
  {
    if seen.Some? && Decide(cfg, n, seen.value, now) == TryCredit {
      OpensAtMost(s, DestOf(seen.value));
      hide EnsureWallet;
    }
    hide SameMoney, PastTtl;
  }

  lemma OpensAtMost(s: Db, dest: Dest)
    ensures var t := EnsureWallet(s, dest);
            t.orders == s.orders && t.created == s.created && t.work == s.work && Unmoved(s, t)
  {
  }

  /** A credit in full: the order becomes paid and its destination, as read, gains its
      amount. */
  predicate Moved(s: Db, n: Notification, o: Order, at: int, t: Db) {
    && StillPending(s, n.order) && n.order in t.orders && t.orders[n.order].status == Paid
    && var dest := DestOf(o);
       && dest in s.balance
       && t.balance == s.balance[dest := s.balance[dest] + o.usd] && t.adjusted == s.adjusted
       && t.credits == s.credits
            + [Credit(n.order, dest, o.usd, n, at, o.workspace > 0 || o.token == s.orders[n.order].token)]
  }

  /** The transaction credits one pending order in full, or changes nothing. */
  lemma SettleShape(s: Db, n: Notification, o: Order, at: int)
    ensures var (t, result) := CreditPaidOrder(s, n, o, at);
            && t.work == s.work && OnlyThisOrder(s, n.order, t)
            && (if result == Credited then Moved(s, n, o, at, t) else t == s)
            && (result == Credited || result == NoLongerPending || result == DbFault)
            && (result == NoLongerPending ==> !StillPending(s, n.order))
  {
  }

  lemma OrdersKept(cfg: Config, s: Db, e: Event)
    requires OrdersInv(cfg, s) && Enabled(s, e)
    ensures OrdersInv(cfg, Apply(cfg, s, e))
  {
    match e {
      case Judge(t, now, fault) => OrdersKeptByJudge(cfg, s, e);
      case Commit(t, fault) => OrdersKeptByCommit(cfg, s, e);
      case Rekey(from, to) => OrdersKeptByRekey(cfg, s, e);
      case _ => OrdersKeptByOthers(cfg, s, e);
    }
  }

  lemma OrdersKeptByJudge(cfg: Config, s: Db, e: Event)
    requires OrdersInv(cfg, s) && Enabled(s, e) && e.Judge?
    ensures OrdersInv(cfg, Apply(cfg, s, e))
  {
    JudgeShape(cfg, s, s.work[e.t].n, s.work[e.t].seen, e.now, e.fault);
    hide Judged, Unmoved, Decide;
  }

  lemma OrdersKeptByCommit(cfg: Config, s: Db, e: Event)
    requires OrdersInv(cfg, s) && Enabled(s, e) && e.Commit?
    ensures OrdersInv(cfg, Apply(cfg, s, e))
  {
    SettleShape(s, s.work[e.t].n, s.work[e.t].order, s.work[e.t].at);
    hide CreditPaidOrder, Decide;
  }

  lemma OrdersKeptByRekey(cfg: Config, s: Db, e: Event)
    requires OrdersInv(cfg, s) && Enabled(s, e) && e.Rekey?
    ensures OrdersInv(cfg, Apply(cfg, s, e))
  {
    hide Approved, Relabelled, Carried;
  }

  lemma OrdersKeptByOthers(cfg: Config, s: Db, e: Event)
    requires OrdersInv(cfg, s) && Enabled(s, e) && !e.Judge? && !e.Commit? && !e.Rekey?
    ensures OrdersInv(cfg, Apply(cfg, s, e))
  {
    hide Decide, Mismatched, PastTtl;
  }

  lemma ApprovedMeans(cfg: Config, n: Notification, o: Order, at: int)
    requires Decide(cfg, n, o, at) == TryCredit
    ensures o.status == Pending && n.settled && !Mismatched(cfg, n, o) && !PastTtl(cfg, o, at)
  {
  }

  lemma CreditsKept(cfg: Config, s: Db, e: Event)
    requires OrdersInv(cfg, s) && CreditsInv(cfg, s) && Enabled(s, e)
    ensures CreditsInv(cfg, Apply(cfg, s, e))
  {
    match e {
      case Judge(t, now, fault) => CreditsKeptByJudge(cfg, s, e);
      case Commit(t, fault) => CreditsKeptByCommit(cfg, s, e);
      case Rekey(from, to) => CreditsKeptByRekey(cfg, s, e);
      case _ => CreditsKeptByOthers(cfg, s, e);
    }
  }

  lemma CreditsKeptByJudge(cfg: Config, s: Db, e: Event)
    requires CreditsInv(cfg, s) && Enabled(s, e) && e.Judge?
    ensures CreditsInv(cfg, Apply(cfg, s, e))
  {
    JudgeShape(cfg, s, s.work[e.t].n, s.work[e.t].seen, e.now, e.fault);
    hide Judged, Decide, Mismatched, PastTtl, Credits;
  }

  lemma CreditsKeptByRekey(cfg: Config, s: Db, e: Event)
    requires CreditsInv(cfg, s) && Enabled(s, e) && e.Rekey?
    ensures CreditsInv(cfg, Apply(cfg, s, e))
  {
    RekeyTouches(s, e.from, e.to);
    RelabelledIs(s.credits, e.from, e.to);
    var t := RekeyToken(s, e.from, e.to);
    assert Apply(cfg, s, e) == t;
    hide RekeyToken, Apply, Enabled, Relabelled, Carried, Warranted, Credits, Received, Renamed;
    forall i | 0 <= i < |t.credits|
      ensures Warranted(cfg, t, t.credits[i])
    {
      WarrantRenamed(cfg, s, s.credits[i], e.from, e.to);
    }
  }

  lemma RekeyTouches(s: Db, from: Token, to: Token)
    ensures var t := RekeyToken(s, from, to);
            && t.credits == Relabelled(s.credits, from, to)
            && t.orders.Keys == s.orders.Keys
            && forall id :: id in s.orders ==> t.orders[id].status == s.orders[id].status
  {
    hide Relabelled, Carried;
  }

  /** A reset keeps a credit warranted: entry and order are renamed together. */
  lemma WarrantRenamed(cfg: Config, s: Db, c: Credit, from: Token, to: Token)
    requires Warranted(cfg, s, c)
    ensures Warranted(cfg, RekeyToken(s, from, to), c.(dest := Renamed(c.dest, from, to)))
  {
    hide Mismatched, PastTtl, Relabelled, Carried;
  }

  lemma CreditsKeptByOthers(cfg: Config, s: Db, e: Event)
    requires OrdersInv(cfg, s) && CreditsInv(cfg, s) && Enabled(s, e) && !e.Judge? && !e.Commit? && !e.Rekey?
    ensures CreditsInv(cfg, Apply(cfg, s, e))
  {
    hide Mismatched, PastTtl, Credits, Approved, Grounded;
  }

  lemma CreditsKeptByCommit(cfg: Config, s: Db, e: Event)
    requires OrdersInv(cfg, s) && CreditsInv(cfg, s) && Enabled(s, e) && e.Commit?
    ensures CreditsInv(cfg, Apply(cfg, s, e))
  {
    var w, t := s.work[e.t], Apply(cfg, s, e);
    assert Approved(cfg, w) && Grounded(s, w.n, w.order);
    ApprovedMeans(cfg, w.n, w.order, w.at);
    SettleShape(s, w.n, w.order, w.at);
    assert !e.fault && CreditPaidOrder(s, w.n, w.order, w.at).1 == Credited ==> Moved(s, w.n, w.order, w.at, t);
    hide CreditPaidOrder, Decide, SameMoney, Mismatched, PastTtl, Moved, Warranted, Credits;
    if Moved(s, w.n, w.order, w.at, t) {
      CreditIsWarranted(cfg, s, w.n, w.order, w.at, t);
      CreditsKeptByMove(cfg, s, w.n, w.order, w.at, t);
    } else {
      forall i | 0 <= i < |s.credits|
        ensures Warranted(cfg, t, s.credits[i])
      {
        WarrantKept(cfg, s, t, s.credits[i], w.n.order);
      }
    }
  }

  lemma WarrantKept(cfg: Config, s: Db, t: Db, c: Credit, id: Id)
    requires Warranted(cfg, s, c) && OnlyThisOrder(s, id, t)
    requires id in s.orders && s.orders[id].status == Paid ==> t.orders[id].status == Paid
    ensures Warranted(cfg, t, c)
  {
    hide Mismatched, PastTtl;
  }

  lemma CreditIsWarranted(cfg: Config, s: Db, n: Notification, o: Order, at: int, t: Db)
    requires Moved(s, n, o, at, t) && OnlyThisOrder(s, n.order, t) && Grounded(s, n, o)
    requires n.order in s.orders && SameTerms(s.orders[n.order], s.created[n.order])
    requires n.settled && !Mismatched(cfg, n, o) && !PastTtl(cfg, o, at)
    ensures Warranted(cfg, t, t.credits[|s.credits|])
  {
  }

  lemma CreditsKeptByMove(cfg: Config, s: Db, n: Notification, o: Order, at: int, t: Db)
    requires CreditsInv(cfg, s) && Moved(s, n, o, at, t) && OnlyThisOrder(s, n.order, t)
    requires Warranted(cfg, t, t.credits[|s.credits|])
    ensures CreditsInv(cfg, t)
  {
    LedgerSnoc(s.credits, t.credits[|s.credits|]);
    hide Warranted, Credits;
    forall i | 0 <= i < |s.credits|
      ensures Warranted(cfg, t, t.credits[i])
    {
      WarrantKept(cfg, s, t, s.credits[i], n.order);
    }
  }

  lemma BalanceKept(cfg: Config, s: Db, e: Event)
    requires BalanceInv(s) && Enabled(s, e)
    ensures BalanceInv(Apply(cfg, s, e))
  {
    hide Received;
    if e.Judge? {
      JudgeShape(cfg, s, s.work[e.t].n, s.work[e.t].seen, e.now, e.fault);
      hide Judged, OnlyThisOrder;
    } else if e.Commit? {
      BalanceKeptByCommit(cfg, s, e);
    } else if e.Rekey? {
      RelabelledIs(s.credits, e.from, e.to);
      hide Relabelled;
    }
  }

  lemma BalanceKeptByCommit(cfg: Config, s: Db, e: Event)
    requires BalanceInv(s) && Enabled(s, e) && e.Commit?
    ensures BalanceInv(Apply(cfg, s, e))
  {
    hide Received, OnlyThisOrder;
    var w := s.work[e.t];
    SettleShape(s, w.n, w.order, w.at);
    if w.n.order in s.orders {
      LedgerSnoc(s.credits, Credit(w.n.order, DestOf(w.order), w.order.usd, w.n, w.at,
                                   w.order.workspace > 0 || w.order.token == s.orders[w.n.order].token));
    }
    hide CreditPaidOrder;
  }

  lemma {:induction false} RunKeeps(cfg: Config, run: seq<Db>, events: seq<Event>, i: nat)
    requires Run(cfg, run, events) && i < |run|
    ensures OrdersInv(cfg, run[i]) && CreditsInv(cfg, run[i]) && BalanceInv(run[i])
  {
    if i > 0 {
      RunKeeps(cfg, run, events, i - 1);
      OrdersKept(cfg, run[i - 1], events[i - 1]);
      CreditsKept(cfg, run[i - 1], events[i - 1]);
      BalanceKept(cfg, run[i - 1], events[i - 1]);
      hide OrdersInv, CreditsInv, BalanceInv, Apply;
    }
  }

  // ---- What that means for the money ----

  /** Under every interleaving each order is credited at most once, exactly when it is paid,
      for its own amount and on a warrant; a straight credit stands under the order's owner
      of the day, however often tokens are reset afterwards. */
  lemma CreditedOnce(cfg: Config, run: seq<Db>, events: seq<Event>, i: nat, id: Id)
    requires Run(cfg, run, events) && i < |run|
    ensures Credits(run[i].credits, id) <= 1
    ensures Credits(run[i].credits, id) == 1 <==> id in run[i].orders && run[i].orders[id].status == Paid
    ensures forall c :: c in run[i].credits ==> Warranted(cfg, run[i], c)
  {
    RunKeeps(cfg, run, events, i);
  }

  /** What a credit vouches for, figure by figure: a settled message for this order, within
      half a fen of its price, from the configured app where both name one, judged within
      the time to live, for exactly the dollars ordered, and to the pool ordered for or, when
      straight, to the wallet of the order's token. */
  lemma CreditMeans(cfg: Config, run: seq<Db>, events: seq<Event>, i: nat, k: nat)
    requires Run(cfg, run, events) && i < |run| && k < |run[i].credits|
    ensures
      var c := run[i].credits[k];
      && c.order in run[i].created && c.order in run[i].orders
      && var o := run[i].created[c.order];
         && c.notice.order == c.order && c.notice.settled
         && c.notice.amount.Some? && -0.005 < c.notice.amount.value - o.cny < 0.005
         && (cfg.appId != "" && c.notice.appId != "" ==> c.notice.appId == cfg.appId)
         && (cfg.ttl > 0 ==> c.at - o.created <= cfg.ttl)
         && c.usd == o.usd
         && (o.workspace > 0 ==> c.dest == Pool(o.workspace))
         && (o.workspace == 0 && c.straight ==> c.dest == Wallet(run[i].orders[c.order].token))
  {
    RunKeeps(cfg, run, events, i);
    assert Warranted(cfg, run[i], run[i].credits[k]);
    assert SameTerms(run[i].orders[run[i].credits[k].order], run[i].created[run[i].credits[k].order]);
  }

  /** And what earns one: without a fault, a judgement leaves its worker ready exactly when
      the order was read as pending and the message is settled, from the right app, within
      half a fen of the price and in time. */
  lemma ReadyExactly(cfg: Config, s: Db, n: Notification, seen: Option<Order>, now: int)
    ensures
      Judged(cfg, s, n, seen, now, false).1.Ready? <==>
      && seen.Some? && seen.value.status == Pending && n.settled
      && (cfg.appId == "" || n.appId == "" || n.appId == cfg.appId)
      && n.amount.Some? && -0.005 < n.amount.value - seen.value.cny < 0.005
      && (cfg.ttl <= 0 || now - seen.value.created <= cfg.ttl)
  {
  }

  /** Every other judgement, by its cause: the worker's answer, and the one change it can
      make, which is to expire a pending order that is late. */
  lemma AnsweredExactly(cfg: Config, s: Db, n: Notification, seen: Option<Order>, now: int)
    ensures
      var (t, next) := Judged(cfg, s, n, seen, now, false);
      && (seen.None? ==> next == Finished(n, Unknown))
      && (seen.Some? ==>
            var o := seen.value;
            var tampered := || (cfg.appId != "" && n.appId != "" && n.appId != cfg.appId)
                            || n.amount.None? || n.amount.value - o.cny >= 0.005 || o.cny - n.amount.value >= 0.005;
            && (o.status == Paid ==> next == Finished(n, AlreadyPaid))
            && (o.status == Expired || o.status == Failed ==> next == Finished(n, Closed))
            && (o.status == Pending && !n.settled ==> next == Finished(n, NotSettled))
            && (o.status == Pending && n.settled && tampered ==> next == Finished(n, Tampered))
            && (next == Finished(n, TimedOut) <==>
                  o.status == Pending && n.settled && !tampered && cfg.ttl > 0 && now - o.created > cfg.ttl))
      && (next == Finished(n, TimedOut) && n.order in s.orders && s.orders[n.order].status == Pending ==>
            n.order in t.orders && t.orders[n.order].status == Expired)
  {
  }

  /** What a user's cancellation and the sweep take away: pending orders only, the user's
      own named one, and those older than the cutoff. */
  lemma RemovedExactly(cfg: Config, s: Db, id: Id, token: Token, cutoff: int)
    ensures forall x ::
      && (x in Apply(cfg, s, Cancel(id, token)).orders <==>
            x in s.orders && !(x == id && s.orders[x].status == Pending && s.orders[x].token == token))
      && (x in Apply(cfg, s, Sweep(cutoff)).orders <==>
            x in s.orders && !(s.orders[x].status == Pending && s.orders[x].created < cutoff))
    ensures forall x :: x in Apply(cfg, s, Cancel(id, token)).orders ==> Apply(cfg, s, Cancel(id, token)).orders[x] == s.orders[x]
    ensures forall x :: x in Apply(cfg, s, Sweep(cutoff)).orders ==> Apply(cfg, s, Sweep(cutoff)).orders[x] == s.orders[x]
  {
  }

  /** Every balance is its top-ups plus its other movements. */
  lemma BalancesAddUp(cfg: Config, run: seq<Db>, events: seq<Event>, i: nat, d: Dest)
    requires Run(cfg, run, events) && i < |run| && d in run[i].balance
    ensures d in run[i].adjusted && run[i].balance[d] == run[i].adjusted[d] + Received(run[i].credits, d)
  {
    RunKeeps(cfg, run, events, i);
  }

  /** The commit of event i came through. */
  predicate CreditsAt(run: seq<Db>, events: seq<Event>, i: nat)
    requires i < |events| && |run| == |events| + 1
  {
    && events[i].Commit?
    && events[i].t in run[i].work && run[i].work[events[i].t].Ready?
    && events[i].t in run[i + 1].work
    && run[i + 1].work[events[i].t] == Finished(run[i].work[events[i].t].n, Credited)
  }

  /** A credit reaches the order's owner exactly when the top-up is for a pool or the row
      still bears the token that was read; the destination written gains the amount, and no
      other balance changes. */
  lemma ReachesTheOwner(cfg: Config, run: seq<Db>, events: seq<Event>, i: nat)
    requires Run(cfg, run, events) && i < |events| && CreditsAt(run, events, i)
    ensures var w := run[i].work[events[i].t];
            && w.n.order in run[i].orders && w.n.order in run[i + 1].orders
            && |run[i + 1].credits| == |run[i].credits| + 1
            && var c, owner := run[i + 1].credits[|run[i].credits|], DestOf(run[i + 1].orders[w.n.order]);
               && c.order == w.n.order && c.usd == w.order.usd
               && c.dest in run[i].balance
               && run[i + 1].balance == run[i].balance[c.dest := run[i].balance[c.dest] + c.usd]
               && (c.dest == owner <==> w.order.workspace > 0 || w.order.token == run[i].orders[w.n.order].token)
               && (c.straight <==> c.dest == owner)
  {
    var w := run[i].work[events[i].t];
    RunKeeps(cfg, run, events, i);
    assert Grounded(run[i], w.n, w.order);
    SettleShape(run[i], w.n, w.order, w.at);
    hide CreditPaidOrder, CreditsInv, BalanceInv, Approved;
  }

  lemma RunSnoc(cfg: Config, run: seq<Db>, events: seq<Event>, e: Event) returns (more: seq<Db>)
    requires Run(cfg, run, events) && Enabled(run[|events|], e)
    ensures Run(cfg, more, events + [e])
    ensures more == run + [Apply(cfg, run[|events|], e)]
  {
    hide Apply, Enabled, Init;
    more := run + [Apply(cfg, run[|events|], e)];
  }

  const NOTHING := Db(map[], map[], map[], map[], [], map[])
  const ANYTIME := Config("", 0)

  /** An order of 7 yuan for 1 dollar, and the gateway's message that it is settled. */
  const SAMPLE := Order("old", 7.0, 1.0, 0, 0, Pending, "")
  const SETTLED := Notification("order", "trade", true, "", Some(7.0))

  /** A run in which a worker has read the sample order. */
  lemma SampleIsRead() returns (run: seq<Db>, events: seq<Event>)
    ensures Run(ANYTIME, run, events) && |events| == 3
    ensures run[3] == Db(map["order" := SAMPLE], map["order" := SAMPLE], map[Wallet("old") := 0.0],
                         map[Wallet("old") := 0.0], [], map[0 := Fetched(SETTLED, Some(SAMPLE))])
  {
    var s1 := NOTHING.(balance := map[Wallet("old") := 0.0], adjusted := map[Wallet("old") := 0.0]);
    var s2 := s1.(orders := map["order" := SAMPLE], created := map["order" := SAMPLE]);
    run := RunSnoc(ANYTIME, [NOTHING], [], Open(Wallet("old")));
    assert run[1] == s1;
    run := RunSnoc(ANYTIME, run, [Open(Wallet("old"))], Create("order", SAMPLE));
    assert run[2] == s2;
    run := RunSnoc(ANYTIME, run, [Open(Wallet("old"))] + [Create("order", SAMPLE)], Fetch(0, SETTLED));
    events := [Open(Wallet("old"))] + [Create("order", SAMPLE)] + [Fetch(0, SETTLED)];
  }

  /** It passes every check. */
  lemma SampleIsJudged(s: Db)
    requires s.work == map[0 := Fetched(SETTLED, Some(SAMPLE))]
    ensures Enabled(s, Judge(0, 1, false))
    ensures Apply(ANYTIME, s, Judge(0, 1, false)) ==
            EnsureWallet(s, Wallet("old")).(work := map[0 := Ready(SETTLED, SAMPLE, 1)])
  {
    assert Decide(ANYTIME, SETTLED, SAMPLE, 1) == TryCredit;
    hide Decide;
  }

  /** And it can miss: the token is reset between the read and the check that opens the
      wallet. The retired token's wallet comes back to life and takes the money; the order is
      paid under the new token, whose own wallet gets nothing. */
  lemma ResetLosesTopUp() returns (run: seq<Db>, events: seq<Event>)
    ensures Run(ANYTIME, run, events) && |events| == 6 && CreditsAt(run, events, 5)
    ensures var last := run[6];
            && last.orders == map["order" := SAMPLE.(token := "new", status := Paid, tradeNo := "trade")]
            && last.balance == map[Wallet("new") := 0.0, Wallet("old") := 1.0]
  {
    run, events := SampleIsRead();
    var s3 := run[3];
    SampleIsReset(s3);
    hide Apply, Enabled;
    run := RunSnoc(ANYTIME, run, events, Rekey("old", "new"));
    events := events + [Rekey("old", "new")];
    SampleIsJudged(run[4]);
    run := RunSnoc(ANYTIME, run, events, Judge(0, 1, false));
    events := events + [Judge(0, 1, false)];
    SampleIsCredited(run[5]);
    run := RunSnoc(ANYTIME, run, events, Commit(0, false));
    events := events + [Commit(0, false)];
  }

  lemma SampleIsReset(s: Db)
    requires s.orders == map["order" := SAMPLE] && s.balance == s.adjusted == map[Wallet("old") := 0.0]
    ensures Enabled(s, Rekey("old", "new"))
    ensures var t := Apply(ANYTIME, s, Rekey("old", "new"));
            && t.orders == map["order" := SAMPLE.(token := "new")]
            && t.balance == map[Wallet("new") := 0.0] && t.work == s.work
  {
  }

  lemma SampleIsCredited(s: Db)
    requires s.orders == map["order" := SAMPLE.(token := "new")] && s.work == map[0 := Ready(SETTLED, SAMPLE, 1)]
    requires s.balance == map[Wallet("new") := 0.0, Wallet("old") := 0.0]
    ensures Enabled(s, Commit(0, false))
    ensures var t := Apply(ANYTIME, s, Commit(0, false));
            && t.orders == map["order" := SAMPLE.(token := "new", status := Paid, tradeNo := "trade")]
            && t.balance == map[Wallet("new") := 0.0, Wallet("old") := 1.0]
            && t.work == map[0 := Finished(SETTLED, Credited)]
  {
  }

  lemma PaidKept(cfg: Config, s: Db, e: Event, id: Id)
    requires Enabled(s, e) && id in s.orders && s.orders[id].status == Paid && OrdersInv(cfg, s)
    ensures id in Apply(cfg, s, e).orders && Apply(cfg, s, e).orders[id].status == Paid
  {
    if e.Judge? {
      JudgeShape(cfg, s, s.work[e.t].n, s.work[e.t].seen, e.now, e.fault);
      hide Judged, Unmoved;
    } else if e.Commit? {
      SettleShape(s, s.work[e.t].n, s.work[e.t].order, s.work[e.t].at);
      hide CreditPaidOrder;
    }
  }

  /** A paid order is never lost, cancelled, swept or expired. */
  lemma {:induction false} PaidForever(cfg: Config, run: seq<Db>, events: seq<Event>, i: nat, j: nat, id: Id)
    requires Run(cfg, run, events) && i <= j < |run|
    requires id in run[i].orders && run[i].orders[id].status == Paid
    ensures id in run[j].orders && run[j].orders[id].status == Paid
  {
    if i < j {
      PaidForever(cfg, run, events, i, j - 1, id);
      RunKeeps(cfg, run, events, j - 1);
      PaidKept(cfg, run[j - 1], events[j - 1], id);
    }
  }

  function PaidIds(s: Db): set<Id> {
    set id | id in s.orders && s.orders[id].status == Paid
  }

  /** The operator's total: the amounts of a set of orders. */
  ghost function SumOf(ids: set<Id>, orders: map<Id, Order>): real
    requires forall id :: id in ids ==> id in orders
  {
    if ids == {} then 0.0
    else
      var id :| id in ids;
      orders[id].usd + SumOf(ids - {id}, orders)
  }

  lemma {:induction false} SumRemove(ids: set<Id>, orders: map<Id, Order>, x: Id)
    requires (forall id :: id in ids ==> id in orders) && x in ids
    ensures SumOf(ids, orders) == orders[x].usd + SumOf(ids - {x}, orders)
    decreases |ids|
  {
    var id :| id in ids && SumOf(ids, orders) == orders[id].usd + SumOf(ids - {id}, orders);
    if id != x {
      SumRemove(ids - {id}, orders, x);
      SumRemove(ids - {x}, orders, id);
      assert ids - {id} - {x} == ids - {x} - {id};
    }
  }

  function TotalCredited(credits: seq<Credit>): real {
    if credits == [] then 0.0 else TotalCredited(credits[..|credits| - 1]) + credits[|credits| - 1].usd
  }

  function CreditedIds(credits: seq<Credit>): set<Id> {
    set c | c in credits :: c.order
  }

  lemma {:induction false} CountsMembers(credits: seq<Credit>, id: Id)
    ensures id in CreditedIds(credits) <==> Credits(credits, id) > 0
  {
    if credits != [] {
      CountsMembers(credits[..|credits| - 1], id);
      assert credits == credits[..|credits| - 1] + [credits[|credits| - 1]];
    }
  }

  lemma {:induction false} TotalIsSum(credits: seq<Credit>, orders: map<Id, Order>)
    requires forall c :: c in credits ==> c.order in orders && c.usd == orders[c.order].usd
    requires forall id :: Credits(credits, id) <= 1
    ensures TotalCredited(credits) == SumOf(CreditedIds(credits), orders)
  {
    if credits != [] {
      var before, c := credits[..|credits| - 1], credits[|credits| - 1];
      forall id
        ensures Credits(before, id) <= 1
      {
        assert Credits(credits, id) <= 1;
      }
      TotalIsSum(before, orders);
      CountsMembers(before, c.order);
      assert Credits(credits, c.order) <= 1;
      assert CreditedIds(credits) == CreditedIds(before) + {c.order} by {
        assert credits == before + [c];
      }
      SumRemove(CreditedIds(credits), orders, c.order);
      assert CreditedIds(credits) - {c.order} == CreditedIds(before);
    }
  }

  /** The total ever credited is the total over the paid orders. */
  lemma TotalsAgree(cfg: Config, run: seq<Db>, events: seq<Event>, i: nat)
    requires Run(cfg, run, events) && i < |run|
    ensures forall id :: id in PaidIds(run[i]) ==> id in run[i].created
    ensures TotalCredited(run[i].credits) == SumOf(PaidIds(run[i]), run[i].created)
  {
    RunKeeps(cfg, run, events, i);
    TotalIsSum(run[i].credits, run[i].created);
    forall id
      ensures id in CreditedIds(run[i].credits) <==> id in PaidIds(run[i])
    {
      CountsMembers(run[i].credits, id);
      assert Credits(run[i].credits, id) == if id in PaidIds(run[i]) then 1 else 0;
    }
    assert CreditedIds(run[i].credits) == PaidIds(run[i]);
  }

  /** The webhook's answer: "success" stops the gateway's retries, "fail" keeps them
      coming. */
  predicate AnswersSuccess(result: Result) {
    match result
    case NotSettled => false
    case DbFault => false
    case _ => true
  }

  /** The worker whose step event i is has its answer with that step. */
  predicate Answers(run: seq<Db>, events: seq<Event>, i: nat)
    requires i < |events| && |run| == |events| + 1
  {
    && (events[i].Judge? || events[i].Commit?)
    && events[i].t in run[i].work && events[i].t in run[i + 1].work
    && run[i + 1].work[events[i].t].Finished?
  }

  /** The gateway is told to stop only when the order was unknown to the read, failed
      validation, is no longer pending, or is past its time to live. */
  lemma SuccessIsEarned(cfg: Config, run: seq<Db>, events: seq<Event>, i: nat)
    requires Run(cfg, run, events) && i < |events| && Answers(run, events, i)
    ensures var w, end := run[i].work[events[i].t], run[i + 1].work[events[i].t];
            end.n == w.n
            && (AnswersSuccess(end.result) ==>
                  || (w.Fetched? && w.seen.None?)
                  || w.n.order !in run[i + 1].orders || run[i + 1].orders[w.n.order].status != Pending
                  || (w.n.order in run[i].created && events[i].Judge?
                      && var o := run[i].created[w.n.order];
                         || (cfg.appId != "" && w.n.appId != "" && w.n.appId != cfg.appId)
                         || w.n.amount.None? || w.n.amount.value - o.cny >= 0.005 || o.cny - w.n.amount.value >= 0.005
                         || (cfg.ttl > 0 && events[i].now - o.created > cfg.ttl)))
  {
    RunKeeps(cfg, run, events, i);
    hide CreditsInv, BalanceInv;
    if events[i].Commit? {
      var w := run[i].work[events[i].t];
      SettleShape(run[i], w.n, w.order, w.at);
      hide CreditPaidOrder;
    }
  }

  /** The gateway is made to retry only by a message that was not settled or a fault of the
      database, and the operator is refused "credited" by nothing that credited or found the
      order paid. */
  lemma RetriedOnlyFor(result: Result)
    ensures !AnswersSuccess(result) <==> result == NotSettled || result == DbFault
    ensures result == Credited || result == AlreadyPaid ==> AnswersCredited(result)
    ensures AnswersCredited(result) ==> result != Unknown && result != Closed && result != Tampered && result != TimedOut
                                        && result != NotSettled && result != DbFault
  {
  }

  /** And a completed credit is there to see. */
  lemma CreditedIsPaid(cfg: Config, run: seq<Db>, events: seq<Event>, i: nat)
    requires Run(cfg, run, events) && i < |events| && CreditsAt(run, events, i)
    ensures var id := run[i].work[events[i].t].n.order;
            && StillPending(run[i], id)
            && id in PaidIds(run[i + 1])
            && Credits(run[i + 1].credits, id) == 1
  {
    var w := run[i].work[events[i].t];
    RunKeeps(cfg, run, events, i + 1);
    SettleShape(run[i], w.n, w.order, w.at);
    hide CreditPaidOrder, Mismatched, PastTtl;
  }

  // ---- The operator's repair ----

  /** Reconciliation puts the gateway's settled answer through the same funnel and tells the
      operator "credited" whenever the funnel reports no error. */
  predicate AnswersCredited(result: Result) {
    result == Credited || result == AlreadyPaid || result == NoLongerPending
  }

  /** Exactly when that is so: the order's row was still there to be credited, or paid
      already, as the credit was attempted. What the funnel read earlier does not matter. */
  lemma ReconcileTellsTheTruth(cfg: Config, run: seq<Db>, events: seq<Event>, i: nat)
    requires Run(cfg, run, events) && i < |events| && Answers(run, events, i)
    requires AnswersCredited(run[i + 1].work[events[i].t].result)
    ensures var id := run[i].work[events[i].t].n.order;
            id in PaidIds(run[i + 1]) <==>
            id in run[i].orders && (run[i].orders[id].status == Pending || run[i].orders[id].status == Paid)
  {
    var w := run[i].work[events[i].t];
    RunKeeps(cfg, run, events, i);
    hide Mismatched, PastTtl, Unmoved, CreditsInv, BalanceInv;
    if events[i].Commit? {
      SettleShape(run[i], w.n, w.order, w.at);
      hide CreditPaidOrder;
    }
  }

  /** And it can be false: the user cancels between the read and the credit. */
  lemma CancelledYetCredited() returns (run: seq<Db>, events: seq<Event>)
    ensures Run(ANYTIME, run, events) && |events| == 6 && Answers(run, events, 5)
    ensures var t := events[5].t;
            && run[5].work[t].n == SETTLED && AnswersCredited(run[6].work[t].result)
            && run[6].orders == map[] && run[6].credits == []
  {
    run, events := SampleIsRead();
    SampleIsCancelled(run[3]);
    hide Apply, Enabled;
    run := RunSnoc(ANYTIME, run, events, Cancel("order", "old"));
    events := events + [Cancel("order", "old")];
    SampleIsJudged(run[4]);
    run := RunSnoc(ANYTIME, run, events, Judge(0, 1, false));
    events := events + [Judge(0, 1, false)];
    SampleIsGone(run[5]);
    run := RunSnoc(ANYTIME, run, events, Commit(0, false));
    events := events + [Commit(0, false)];
  }

  lemma SampleIsCancelled(s: Db)
    requires s.orders == map["order" := SAMPLE]
    ensures Enabled(s, Cancel("order", "old")) && Apply(ANYTIME, s, Cancel("order", "old")) == s.(orders := map[])
  {
  }

  lemma SampleIsGone(s: Db)
    requires s.orders == map[] && s.work == map[0 := Ready(SETTLED, SAMPLE, 1)]
    ensures Enabled(s, Commit(0, false))
    ensures Apply(ANYTIME, s, Commit(0, false)) == s.(work := map[0 := Finished(SETTLED, NoLongerPending)])
  {
  }
}
