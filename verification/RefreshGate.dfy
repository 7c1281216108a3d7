/** Forced token refresh after an upstream 401: any number of workers, one lock per
    credential, and a comparison of the rejected bearer with the current one under it.
    A state machine over the workers' steps; tokens may also be rotated outside the gate
    at any moment. */
module RefreshGate {

  type Cred = string
  type Token = string
  type Tid = nat

  /** Where a worker stands. A refreshing one remembers how many outside rotations its
      credential had seen when the comparison passed. */
  datatype Pc =
    | Queued
    | Holding
    | Refreshing(outside: nat)
    | Refreshed
    | Done(rotated: bool, failed: bool)

  /** A worker reacting to the rejection of the bearer it had sent. */
  datatype Worker = Worker(cred: Cred, seen: Token, pc: Pc)

  /** A successful exchange through the gate. */
  datatype Rotation = Rotation(cred: Cred, seen: Token, from: Token, to: Token)

  datatype Account = Account(current: Token, issued: set<Token>, outside: nat)

  datatype Gate = Gate(
    accounts: map<Cred, Account>,
    locks: map<Cred, Tid>,
    workers: map<Tid, Worker>,
    rotations: seq<Rotation>)

  datatype Event =
    | Arrive(t: Tid, cred: Cred, seen: Token)
    | Lock(t: Tid)
    | Compare(t: Tid)
    | Exchange(t: Tid, minted: Token)   // the refresh succeeds with a new token
    | NoExchange(t: Tid)                // it reports success without having one
    | Fail(t: Tid)                      // it fails
    | Recheck(t: Tid)
    | Outside(cred: Cred, minted: Token)

  predicate Init(s: Gate) {
    && s.locks == map[] && s.workers == map[] && s.rotations == []
    && forall c :: c in s.accounts ==> s.accounts[c].current in s.accounts[c].issued
  }

  predicate At(s: Gate, t: Tid, pc: Pc) {
    t in s.workers && s.workers[t].cred in s.accounts && s.workers[t].pc == pc
  }

  predicate InExchange(s: Gate, t: Tid) {
    t in s.workers && s.workers[t].cred in s.accounts && s.workers[t].pc.Refreshing?
  }

  /** A new token is never an old one. */
  predicate Enabled(s: Gate, e: Event) {
    match e
    case Arrive(t, cred, seen) => t !in s.workers && cred in s.accounts && seen in s.accounts[cred].issued
    case Lock(t) => At(s, t, Queued) && s.workers[t].cred !in s.locks
    case Compare(t) => At(s, t, Holding)
    case Exchange(t, minted) => InExchange(s, t) && minted !in s.accounts[s.workers[t].cred].issued
    case NoExchange(t) => InExchange(s, t)
    case Fail(t) => InExchange(s, t)
    case Recheck(t) => At(s, t, Refreshed)
    case Outside(cred, minted) => cred in s.accounts && minted !in s.accounts[cred].issued
  }

  function Mint(a: Account, minted: Token): Account {
    a.(current := minted, issued := a.issued + {minted})
  }

  function Move(s: Gate, t: Tid, pc: Pc): Gate
    requires t in s.workers
  {
    s.(workers := s.workers[t := s.workers[t].(pc := pc)])
  }

  /** A worker returns: the deferred unlock runs. */
  function Leave(s: Gate, t: Tid, rotated: bool, failed: bool): Gate
    requires t in s.workers
  {
    Move(s, t, Done(rotated, failed)).(locks := s.locks - {s.workers[t].cred})
  }

  function Apply(s: Gate, e: Event): Gate
    requires Enabled(s, e)
  {
    match e
    case Arrive(t, cred, seen) => s.(workers := s.workers[t := Worker(cred, seen, Queued)])
    case Lock(t) => Move(s, t, Holding).(locks := s.locks[s.workers[t].cred := t])
    case Compare(t) =>
      var w := s.workers[t];
      if s.accounts[w.cred].current != w.seen then Leave(s, t, true, false)
      else Move(s, t, Refreshing(s.accounts[w.cred].outside))
    case Exchange(t, minted) =>
      var w := s.workers[t];
      var a := s.accounts[w.cred];
      Move(s, t, Refreshed).(accounts := s.accounts[w.cred := Mint(a, minted)],
                             rotations := s.rotations + [Rotation(w.cred, w.seen, a.current, minted)])
    case NoExchange(t) => Move(s, t, Refreshed)
    case Fail(t) => Leave(s, t, false, true)
    case Recheck(t) =>
      Leave(s, t, s.accounts[s.workers[t].cred].current != s.workers[t].seen, false)
    case Outside(cred, minted) =>
      var a := Mint(s.accounts[cred], minted);
      s.(accounts := s.accounts[cred := a.(outside := a.outside + 1)])
  }

  predicate Run(run: seq<Gate>, events: seq<Event>) {
    && |run| == |events| + 1
    && Init(run[0])
    && forall i :: 0 <= i < |events| ==> Enabled(run[i], events[i]) && run[i + 1] == Apply(run[i], events[i])
  }

  predicate Inside(w: Worker) {
    w.pc.Holding? || w.pc.Refreshing? || w.pc.Refreshed?
  }

  /** Tokens only ever move on. */
  predicate TokensInv(s: Gate) {
    && (forall c :: c in s.accounts ==> s.accounts[c].current in s.accounts[c].issued)
    && (forall t :: t in s.workers ==>
          s.workers[t].cred in s.accounts && s.workers[t].seen in s.accounts[s.workers[t].cred].issued)
    && (forall t :: t in s.workers && s.workers[t].pc.Done? && s.workers[t].pc.rotated ==>
          s.accounts[s.workers[t].cred].current != s.workers[t].seen)
    && (forall r :: r in s.rotations ==>
          && r.cred in s.accounts
          && r.seen in s.accounts[r.cred].issued && r.from in s.accounts[r.cred].issued
          && s.accounts[r.cred].current != r.seen && s.accounts[r.cred].current != r.from)
  }

  /** The lock of a credential is held by exactly the worker inside its section. */
  predicate LockInv(s: Gate) {
    && (forall c :: c in s.locks ==> s.locks[c] in s.workers && s.workers[s.locks[c]].cred == c && Inside(s.workers[s.locks[c]]))
    && (forall t :: t in s.workers && Inside(s.workers[t]) ==>
          s.workers[t].cred in s.locks && s.locks[s.workers[t].cred] == t)
  }

  /** No token is presented for exchange again after one succeeded. */
  predicate OnceInv(s: Gate) {
    && (forall t, r :: t in s.workers && s.workers[t].pc.Refreshing? && r in s.rotations && r.cred == s.workers[t].cred ==>
          r.seen != s.workers[t].seen)
    && (forall i, j :: 0 <= i < j < |s.rotations| && s.rotations[i].cred == s.rotations[j].cred ==>
          s.rotations[i].seen != s.rotations[j].seen && s.rotations[i].from != s.rotations[j].from)
  }

  /** A refresh in flight is about the current token, unless an outside rotation came
      after its comparison. */
  predicate CurrentInv(s: Gate) {
    forall t :: t in s.workers && s.workers[t].pc.Refreshing? ==> Timely(s, s.workers[t])
  }

  predicate Timely(s: Gate, w: Worker)
    requires w.pc.Refreshing?
  {
    && w.cred in s.accounts
    && w.pc.outside <= s.accounts[w.cred].outside
    && (w.pc.outside == s.accounts[w.cred].outside ==> s.accounts[w.cred].current == w.seen)
  }

  lemma TokensKept(s: Gate, e: Event)
    requires TokensInv(s) && Enabled(s, e)
    ensures TokensInv(Apply(s, e))
  {
  }

  lemma LockKept(s: Gate, e: Event)
    requires LockInv(s) && Enabled(s, e)
    ensures LockInv(Apply(s, e))
  {
  }

  lemma OnceKept(s: Gate, e: Event)
    requires TokensInv(s) && LockInv(s) && OnceInv(s) && Enabled(s, e)
    ensures OnceInv(Apply(s, e))
  {
  }

  lemma CurrentKept(s: Gate, e: Event)
    requires LockInv(s) && CurrentInv(s) && Enabled(s, e)
    ensures CurrentInv(Apply(s, e))
  {
  }

  lemma {:induction false} RunKeeps(run: seq<Gate>, events: seq<Event>, i: nat)
    requires Run(run, events) && i < |run|
    ensures TokensInv(run[i]) && LockInv(run[i]) && OnceInv(run[i]) && CurrentInv(run[i])
  {
    if i > 0 {
      RunKeeps(run, events, i - 1);
      TokensKept(run[i - 1], events[i - 1]);
      LockKept(run[i - 1], events[i - 1]);
      OnceKept(run[i - 1], events[i - 1]);
      CurrentKept(run[i - 1], events[i - 1]);
      hide TokensInv, LockInv, OnceInv, CurrentInv;
    }
  }

  /** Refreshes of one credential never overlap. */
  lemma NoOverlap(run: seq<Gate>, events: seq<Event>, i: nat, t: Tid, u: Tid)
    requires Run(run, events) && i < |run|
    requires t in run[i].workers && run[i].workers[t].pc.Refreshing?
    requires u in run[i].workers && Inside(run[i].workers[u])
    requires run[i].workers[t].cred == run[i].workers[u].cred
    ensures t == u
  {
    RunKeeps(run, events, i);
  }

  /** A refresh in flight is about the current token, unless that was rotated outside the
      gate since the comparison. */
  lemma RefreshesTheCurrent(run: seq<Gate>, events: seq<Event>, i: nat, t: Tid)
    requires Run(run, events) && i < |run|
    requires t in run[i].workers && run[i].workers[t].pc.Refreshing?
    ensures var w := run[i].workers[t];
            && w.cred in run[i].accounts
            && (run[i].accounts[w.cred].outside == w.pc.outside ==> run[i].accounts[w.cred].current == w.seen)
  {
    RunKeeps(run, events, i);
  }

  /** However many workers saw one token rejected, at most one of their exchanges
      succeeds; and no token is left twice. */
  lemma OneRotationPerToken(run: seq<Gate>, events: seq<Event>, n: nat, i: nat, j: nat)
    requires Run(run, events) && n < |run| && i < j < |run[n].rotations|
    requires run[n].rotations[i].cred == run[n].rotations[j].cred
    ensures run[n].rotations[i].seen != run[n].rotations[j].seen
    ensures run[n].rotations[i].from != run[n].rotations[j].from
  {
    RunKeeps(run, events, n);
  }

  /** A worker told that the token was rotated never meets the rejected one as current
      again. */
  lemma RotatedMeansReplaced(run: seq<Gate>, events: seq<Event>, i: nat, t: Tid)
    requires Run(run, events) && i < |run|
    requires t in run[i].workers && run[i].workers[t].pc.Done? && run[i].workers[t].pc.rotated
    ensures run[i].workers[t].cred in run[i].accounts
    ensures run[i].accounts[run[i].workers[t].cred].current != run[i].workers[t].seen
  {
    RunKeeps(run, events, i);
  }

  /** A held lock is always on its way to being released: its holder can take a step. */
  lemma HolderCanStep(run: seq<Gate>, events: seq<Event>, i: nat, c: Cred)
    requires Run(run, events) && i < |run| && c in run[i].locks
    ensures var t := run[i].locks[c];
            Enabled(run[i], Compare(t)) || Enabled(run[i], Fail(t)) || Enabled(run[i], Recheck(t))
  {
    RunKeeps(run, events, i);
  }

  // ---- What a worker gets ----

  /** A worker is free of the gate: it has its answer and its lock is gone. */
  predicate Returned(s: Gate, t: Tid, rotated: bool, failed: bool) {
    t in s.workers && s.workers[t].pc == Done(rotated, failed) && s.workers[t].cred !in s.locks
  }

  /** A rejected token that is still the current one is refreshed: after the comparison the
      exchange can come back with any token never issued before. */
  lemma CurrentIsRefreshed(s: Gate, t: Tid, minted: Token)
    requires Enabled(s, Compare(t)) && s.accounts[s.workers[t].cred].current == s.workers[t].seen
    requires minted !in s.accounts[s.workers[t].cred].issued
    ensures var u := Apply(s, Compare(t));
            Enabled(u, Exchange(t, minted)) && Enabled(u, NoExchange(t)) && Enabled(u, Fail(t)) && u.locks == s.locks
  {
  }

  /** A token replaced in the meantime is reported as rotated, with no exchange made. */
  lemma ReplacedIsReported(s: Gate, t: Tid)
    requires Enabled(s, Compare(t)) && s.accounts[s.workers[t].cred].current != s.workers[t].seen
    ensures var u := Apply(s, Compare(t));
            Returned(u, t, true, false) && u.accounts == s.accounts && u.rotations == s.rotations
  {
  }

  /** A refresh that comes back with a new token, with nothing in between: the new token is
      current, the exchange is on record, and the worker is told of the rotation. */
  lemma RefreshRotates(run: seq<Gate>, events: seq<Event>, i: nat, t: Tid, minted: Token)
    requires Run(run, events) && i < |run| && Enabled(run[i], Exchange(t, minted))
    ensures var s, u := run[i], Apply(run[i], Exchange(t, minted));
            && Enabled(u, Recheck(t))
            && var v, cred := Apply(u, Recheck(t)), s.workers[t].cred;
               && Returned(v, t, true, false)
               && cred in v.accounts && v.accounts[cred].current == minted
               && v.rotations == s.rotations + [Rotation(cred, s.workers[t].seen, s.accounts[cred].current, minted)]
  {
    RunKeeps(run, events, i);
  }

  /** A refresh that fails is reported as failed, with everything as it was. */
  lemma FailureIsReported(s: Gate, t: Tid)
    requires Enabled(s, Fail(t))
    ensures var u := Apply(s, Fail(t));
            Returned(u, t, false, true) && u.accounts == s.accounts && u.rotations == s.rotations
  {
  }

  /** After a refresh that reported success, rotated is told exactly when the current token
      is not the rejected one. */
  lemma RecheckIsHonest(s: Gate, t: Tid)
    requires Enabled(s, Recheck(t))
    ensures Returned(Apply(s, Recheck(t)), t, s.accounts[s.workers[t].cred].current != s.workers[t].seen, false)
    ensures Apply(s, Recheck(t)).accounts == s.accounts
  {
  }

  /** A worker that waits for a free lock gets it, and then compares. */
  lemma FreeLockIsTaken(s: Gate, t: Tid)
    requires t in s.workers && s.workers[t].pc.Queued? && s.workers[t].cred in s.accounts && s.workers[t].cred !in s.locks
    ensures Enabled(s, Lock(t)) && Enabled(Apply(s, Lock(t)), Compare(t))
  {
  }
}
