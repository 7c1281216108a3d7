/** The uptime history of one provider: a fine-grained timeline and a daily rollup, both
    pruned in place, refining the full log of every sample ever recorded. Times are in
    nanoseconds and dates are day ordinals. */
module UptimeHistory {
  import opened Common

  const HOUR: int := 3600 * 1_000_000_000
  const RECENT_RETENTION: int := 48 * HOUR
  const DAY_RETENTION: nat := 90

  /** One probe; day is the local date of ts, which nothing here relates to ts. */
  datatype Sample = Sample(ts: int, day: int, ok: bool)

  datatype DayStat = DayStat(date: int, total: int, good: int)

  // ---- The full log, which the store does not keep ----

  function Newest(log: seq<Sample>): int
    requires log != []
  {
    var last := log[|log| - 1].ts;
    if |log| == 1 then last
    else
      var before := Newest(log[..|log| - 1]);
      if last > before then last else before
  }

  function NewestDay(log: seq<Sample>): int
    requires log != []
  {
    var last := log[|log| - 1].day;
    if |log| == 1 then last
    else
      var before := NewestDay(log[..|log| - 1]);
      if last > before then last else before
  }

  /** The samples later than a cutoff, in order. */
  function Within(log: seq<Sample>, cutoff: int): seq<Sample> {
    if log == [] then []
    else
      var last := log[|log| - 1];
      Within(log[..|log| - 1], cutoff) + if last.ts > cutoff then [last] else []
  }

  /** The samples of the days lo to hi, and the good ones among them. */
  function Count(log: seq<Sample>, lo: int, hi: int): nat {
    if log == [] then 0
    else Count(log[..|log| - 1], lo, hi) + if lo <= log[|log| - 1].day <= hi then 1 else 0
  }

  function Good(log: seq<Sample>, lo: int, hi: int): nat {
    if log == [] then 0
    else
      var last := log[|log| - 1];
      Good(log[..|log| - 1], lo, hi) + if lo <= last.day <= hi && last.ok then 1 else 0
  }

  /** The true figures of one day. */
  function Truth(log: seq<Sample>, day: int): DayStat {
    DayStat(day, Count(log, day, day), Good(log, day, day))
  }

  // ---- The rollup ----

  function Bar(days: map<int, DayStat>, day: int): DayStat {
    if day in days then days[day] else DayStat(day, 0, 0)
  }

  function Rolled(days: map<int, DayStat>, s: Sample): map<int, DayStat> {
    var d := Bar(days, s.day);
    days[s.day := DayStat(d.date, d.total + 1, d.good + if s.ok then 1 else 0)]
  }

  /** Over the limit, only the days of the window ending at the newest survive. */
  function Pruned(days: map<int, DayStat>, newest: int): map<int, DayStat> {
    if |days| <= DAY_RETENTION then days
    else map k | k in days && k >= newest - (DAY_RETENTION - 1) :: days[k]
  }

  function DaysAfter(log: seq<Sample>): map<int, DayStat> {
    if log == [] then map[]
    else Pruned(Rolled(DaysAfter(log[..|log| - 1]), log[|log| - 1]), NewestDay(log))
  }

  class ProvStore {
    var last: Option<Sample>
    var recent: seq<Sample>
    var days: map<int, DayStat>
    ghost var log: seq<Sample>

    ghost predicate Valid()
      reads this
    {
      && recent == (if log == [] then [] else Within(log, Newest(log) - RECENT_RETENTION))
      && days == DaysAfter(log)
      && last == (if log == [] then None else Some(log[|log| - 1]))
    }

    constructor ()
      ensures Valid() && log == []
    {
      last, recent, days, log := None, [], map[], [];
    }

    method Record(s: Sample)
      requires Valid()
      modifies this
      ensures Valid() && log == old(log) + [s]
    {
      hide DaysAfter, Within, Newest, NewestDay, Rolled, Pruned;
      ghost var was := log;
      LogSnoc(was, s);
      last := Some(s);
      recent := recent + [s];
      Retain(was, s);
      var d := Bar(days, s.day);
      d := d.(total := d.total + 1);
      if s.ok {
        d := d.(good := d.good + 1);
      }
      days := days[s.day := d];
      assert days == Rolled(DaysAfter(was), s) by {
        DefineRolled(DaysAfter(was), s);
      }
      log := log + [s];
      PruneDays();
    }

    /** Drops the samples that fell out of the window ending at the newest one held. */
    method Retain(ghost was: seq<Sample>, s: Sample)
      requires recent == (if was == [] then [] else Within(was, Newest(was) - RECENT_RETENTION)) + [s]
      modifies `recent
      ensures recent == Within(was + [s], Newest(was + [s]) - RECENT_RETENTION)
    {
      hide Within, Newest;
      var latest := s.ts;
      for i := 0 to |recent|
        invariant latest >= s.ts && (latest == s.ts || exists j :: 0 <= j < i && recent[j].ts == latest)
        invariant forall j :: 0 <= j < i ==> recent[j].ts <= latest
      {
        if recent[i].ts > latest {
          latest := recent[i].ts;
        }
      }
      LatestIsNewest(was, s, recent, latest);
      var cutoff := latest - RECENT_RETENTION;
      var kept := Since(recent, cutoff);
      Narrow(was, s, recent, cutoff);
      recent := kept;
    }

    method PruneDays()
      requires log != [] && days == Rolled(DaysAfter(log[..|log| - 1]), log[|log| - 1])
      modifies `days
      ensures days == DaysAfter(log)
    {
      if |days| <= DAY_RETENTION {
        return;
      }
      var newest := NewestKey(days);
      KeysReach(log, newest);
      var cutoff := newest - (DAY_RETENTION - 1);
      ghost var full := days;
      var left := days.Keys;
      while left != {}
        invariant left <= days.Keys <= full.Keys
        invariant forall k :: k in days ==> days[k] == full[k]
        invariant forall k :: k in full && k >= cutoff ==> k in days
        invariant forall k :: k in days && k < cutoff ==> k in left
        decreases left
      {
        var k :| k in left;
        if k < cutoff {
          days := days - {k};
        }
        left := left - {k};
      }
      assert days == Pruned(full, newest);
    }
  }

  /** The loop that recentWindow and the timeline's own pruning share. */
  method Since(samples: seq<Sample>, cutoff: int) returns (out: seq<Sample>)
    ensures out == Within(samples, cutoff)
  {
    out := [];
    for i := 0 to |samples|
      invariant out == Within(samples[..i], cutoff)
    {
      assert samples[..i + 1][..i] == samples[..i];
      if samples[i].ts > cutoff {
        out := out + [samples[i]];
      }
    }
    assert samples[..|samples|] == samples;
  }

  lemma Occupied(s: set<int>)
    ensures s == {} <==> forall k :: k !in s
  {
    assert (forall k :: k !in s) ==> s == {};
  }

  method NewestKey(days: map<int, DayStat>) returns (newest: int)
    requires |days| > 0
    ensures newest in days && forall k :: k in days ==> k <= newest
  {
    var left := days.Keys;
    Occupied(left);
    newest :| newest in left;
    while left != {}
      invariant left <= days.Keys && newest in days
      invariant forall k :: k in days && k !in left ==> k <= newest
      decreases left
    {
      Occupied(left);
      var k :| k in left;
      if k > newest {
        newest := k;
      }
      left := left - {k};
    }
  }

  // ---- Snoc facts ----

  lemma LogSnoc(log: seq<Sample>, s: Sample)
    ensures (log + [s])[..|log|] == log
    ensures NewestDay(log + [s]) == if log == [] || s.day > NewestDay(log) then s.day else NewestDay(log)
    ensures Newest(log + [s]) == if log == [] || s.ts > Newest(log) then s.ts else Newest(log)
    ensures forall lo, hi :: Count(log + [s], lo, hi) == Count(log, lo, hi) + if lo <= s.day <= hi then 1 else 0
    ensures forall lo, hi :: Good(log + [s], lo, hi) == Good(log, lo, hi) + if lo <= s.day <= hi && s.ok then 1 else 0
  {
    assert (log + [s])[..|log|] == log;
  }

  lemma DefineRolled(days: map<int, DayStat>, s: Sample)
    ensures
      var d := Bar(days, s.day);
      Rolled(days, s) == days[s.day := DayStat(d.date, d.total + 1, d.good + if s.ok then 1 else 0)]
  {
  }

  // ---- The timeline ----

  lemma WithinSnoc(log: seq<Sample>, s: Sample, cutoff: int)
    ensures Within(log + [s], cutoff) == Within(log, cutoff) + if s.ts > cutoff then [s] else []
  {
    assert (log + [s])[..|log|] == log;
  }

  /** Filtering twice is filtering by the later cutoff. */
  lemma {:induction false} WithinTwice(log: seq<Sample>, a: int, b: int)
    ensures Within(Within(log, a), b) == Within(log, if a > b then a else b)
  {
    hide Within;
    var c := if a > b then a else b;
    if log == [] {
      WithinNothing(a);
      WithinNothing(b);
      WithinNothing(c);
    } else {
      var before, last := log[..|log| - 1], log[|log| - 1];
      assert log == before + [last];
      WithinTwice(before, a, b);
      WithinSnoc(before, last, a);
      WithinSnoc(before, last, c);
      WithinSnoc(Within(before, a), last, b);
      assert Within(before, a) + [] == Within(before, a) && Within(before, c) + [] == Within(before, c);
    }
  }

  lemma WithinNothing(cutoff: int)
    ensures Within([], cutoff) == []
  {
  }

  lemma {:induction false} WithinElements(log: seq<Sample>, cutoff: int)
    ensures forall s :: s in Within(log, cutoff) <==> s in log && s.ts > cutoff
  {
    if log != [] {
      WithinElements(log[..|log| - 1], cutoff);
      assert log == log[..|log| - 1] + [log[|log| - 1]];
    }
  }

  lemma {:induction false} NewestMeans(log: seq<Sample>)
    requires log != []
    ensures exists s :: s in log && s.ts == Newest(log)
    ensures forall s :: s in log ==> s.ts <= Newest(log)
  {
    var last := log[|log| - 1];
    assert last in log;
    if |log| > 1 {
      NewestMeans(log[..|log| - 1]);
      assert log == log[..|log| - 1] + [last];
    }
  }

  /** The newest sample held is the newest ever seen: the window never lets it go. */
  lemma LatestIsNewest(was: seq<Sample>, s: Sample, held: seq<Sample>, latest: int)
    requires held == (if was == [] then [] else Within(was, Newest(was) - RECENT_RETENTION)) + [s]
    requires latest == s.ts || exists j :: 0 <= j < |held| && held[j].ts == latest
    requires latest >= s.ts && forall j :: 0 <= j < |held| ==> held[j].ts <= latest
    ensures latest == Newest(was + [s])
  {
    hide Within, Newest, NewestDay, Count, Good;
    LogSnoc(was, s);
    if was != [] {
      var kept := Within(was, Newest(was) - RECENT_RETENTION);
      NewestMeans(was);
      WithinElements(was, Newest(was) - RECENT_RETENTION);
      var top :| top in was && top.ts == Newest(was);
      assert top in kept;
      var i :| 0 <= i < |kept| && kept[i] == top;
      assert held[i] == top;
      assert forall j :: 0 <= j < |kept| ==> held[j] in kept;
    }
  }

  lemma Narrow(was: seq<Sample>, s: Sample, held: seq<Sample>, cutoff: int)
    requires held == (if was == [] then [] else Within(was, Newest(was) - RECENT_RETENTION)) + [s]
    requires cutoff == Newest(was + [s]) - RECENT_RETENTION
    ensures Within(held, cutoff) == Within(was + [s], cutoff)
  {
    LogSnoc(was, s);
    WithinSnoc(was, s, cutoff);
    if was != [] {
      var a := Newest(was) - RECENT_RETENTION;
      WithinSnoc(Within(was, a), s, cutoff);
      WithinTwice(was, a, cutoff);
    }
  }

  /** The published timeline is the whole log's, as far back as both the window and the
      retention reach. */
  method Timeline(store: ProvStore, window: int, now: int) returns (out: seq<Sample>)
    requires store.Valid()
    ensures store.log == [] ==> out == []
    ensures store.log != [] ==>
      var kept := Newest(store.log) - RECENT_RETENTION;
      out == Within(store.log, if kept > now - window then kept else now - window)
  {
    hide Newest, DaysAfter;
    out := Since(store.recent, now - window);
    if store.log != [] {
      WithinTwice(store.log, Newest(store.log) - RECENT_RETENTION, now - window);
    }
  }

  // ---- The daily rollup ----

  lemma {:induction false} NewestDayMeans(log: seq<Sample>)
    requires log != []
    ensures Count(log, NewestDay(log), NewestDay(log)) > 0
    ensures forall k :: k > NewestDay(log) ==> Count(log, k, k) == 0
  {
    if |log| > 1 {
      NewestDayMeans(log[..|log| - 1]);
    }
  }

  lemma {:induction false} GoodIsCounted(log: seq<Sample>, lo: int, hi: int)
    ensures Good(log, lo, hi) <= Count(log, lo, hi)
    ensures lo > hi ==> Count(log, lo, hi) == 0
  {
    if log != [] {
      GoodIsCounted(log[..|log| - 1], lo, hi);
    }
  }

  lemma {:induction false} SpanBound(keys: set<int>, lo: int, n: nat)
    requires forall k :: k in keys ==> lo <= k < lo + n
    ensures |keys| <= n
    decreases n
  {
    if n == 0 {
      assert forall k :: k !in keys;
      assert keys == {};
    } else {
      var fewer := keys - {lo};
      SpanBound(fewer, lo + 1, n - 1);
      assert keys <= fewer + {lo};
      assert |fewer + {lo}| <= |fewer| + 1;
      Subset(keys, fewer + {lo});
    }
  }

  lemma {:induction false} Subset(a: set<int>, b: set<int>)
    requires a <= b
    ensures |a| <= |b|
  {
    assert |b - a| == |b| - |a|;
  }

  /** What the rollup of a log is allowed to say: never more than the truth, and within
      the last 90 days up to the newest sample exactly the truth. */
  ghost predicate Refines(days: map<int, DayStat>, log: seq<Sample>) {
    && (forall k :: k in days ==> Understates(days[k], Truth(log, k)))
    && (log == [] ==> days == map[])
    && (log != [] ==>
          && (forall k :: k in days ==> k <= NewestDay(log))
          && (forall k :: k > NewestDay(log) - DAY_RETENTION ==> Bar(days, k) == Truth(log, k)))
  }

  predicate Understates(d: DayStat, truth: DayStat) {
    && d.date == truth.date
    && 0 <= d.good <= d.total && 0 < d.total
    && d.total <= truth.total && d.good <= truth.good
  }

  lemma TruthSnoc(log: seq<Sample>, s: Sample)
    ensures forall k :: k != s.day ==> Truth(log + [s], k) == Truth(log, k)
    ensures
      var t := Truth(log, s.day);
      Truth(log + [s], s.day) == DayStat(s.day, t.total + 1, t.good + if s.ok then 1 else 0)
    ensures log == [] ==> forall k :: Truth(log, k) == DayStat(k, 0, 0)
    ensures Truth(log, s.day).good <= Truth(log, s.day).total
  {
    LogSnoc(log, s);
    GoodIsCounted(log, s.day, s.day);
  }

  lemma RolledRefines(days: map<int, DayStat>, was: seq<Sample>, s: Sample)
    requires Refines(days, was)
    ensures Refines(Rolled(days, s), was + [s])
  {
    hide Truth, NewestDay;
    LogSnoc(was, s);
    TruthSnoc(was, s);
    TruthDate(was, s.day);
  }

  lemma TruthDate(log: seq<Sample>, k: int)
    ensures Truth(log, k).date == k && 0 <= Truth(log, k).total && 0 <= Truth(log, k).good
  {
  }

  lemma PrunedRefines(days: map<int, DayStat>, log: seq<Sample>)
    requires log != [] && Refines(days, log)
    ensures Refines(Pruned(days, NewestDay(log)), log)
    ensures |Pruned(days, NewestDay(log))| <= DAY_RETENTION
  {
    hide Truth, NewestDay, Understates;
    if |days| > DAY_RETENTION {
      SpanBound(Pruned(days, NewestDay(log)).Keys, NewestDay(log) - (DAY_RETENTION - 1), DAY_RETENTION);
    }
  }

  /** What the rollup holds: the window up to the newest sample is the truth, whatever was
      pruned on the way, and nothing outside it is overstated. */
  lemma {:induction false} RollupRefines(log: seq<Sample>)
    ensures Refines(DaysAfter(log), log) && |DaysAfter(log)| <= DAY_RETENTION
  {
    hide Refines, Pruned, Rolled, NewestDay;
    if log == [] {
      EmptyRefines();
    } else {
      var was, s := log[..|log| - 1], log[|log| - 1];
      assert log == was + [s];
      RollupRefines(was);
      RolledRefines(DaysAfter(was), was, s);
      PrunedRefines(Rolled(DaysAfter(was), s), log);
    }
  }

  lemma EmptyRefines()
    ensures Refines(map[], [])
  {
  }

  /** The newest day held is the newest ever seen. */
  lemma KeysReach(log: seq<Sample>, newest: int)
    requires log != []
    requires var days := Rolled(DaysAfter(log[..|log| - 1]), log[|log| - 1]);
      newest in days && forall k :: k in days ==> k <= newest
    ensures newest == NewestDay(log)
  {
    hide Rolled, DaysAfter, Count, Good, NewestDay;
    var was, s := log[..|log| - 1], log[|log| - 1];
    assert log == was + [s];
    RollupRefines(was);
    RolledRefines(DaysAfter(was), was, s);
    NewestDayMeans(log);
    assert Bar(Rolled(DaysAfter(was), s), NewestDay(log)).total > 0;
  }

  /** Every day held shows its true figures. */
  ghost predicate Exact(days: map<int, DayStat>, log: seq<Sample>) {
    forall k :: k in days ==> days[k] == Truth(log, k)
  }

  /** A day that was recorded and has been pruned away. */
  predicate Dropped(log: seq<Sample>, day: int) {
    Count(log, day, day) > 0 && day !in DaysAfter(log)
  }

  /** A sample keeps the days held exact unless it is for a day that was dropped and comes
      back to stay: it stays unless it is pruned at once, the store being full and the day
      out of the window. */
  lemma ExactStep(log: seq<Sample>, s: Sample)
    requires Exact(DaysAfter(log), log)
    ensures Exact(DaysAfter(log + [s]), log + [s]) <==>
            || !Dropped(log, s.day)
            || (|DaysAfter(log)| == DAY_RETENTION && s.day <= NewestDay(log) - DAY_RETENTION)
  {
    var days, more := DaysAfter(log), Rolled(DaysAfter(log), s);
    var now := DaysAfter(log + [s]);
    RollupRefines(log);
    LogSnoc(log, s);
    TruthSnoc(log, s);
    TruthCounts(log, s.day);
    DaysSnoc(log, s);
    hide Truth, NewestDay, DaysAfter, Count;
    assert forall k :: k in now && k != s.day ==> k in days && now[k] == days[k];
    if !Dropped(log, s.day) {
      assert more[s.day] == Truth(log + [s], s.day);
    } else {
      assert |more| == |days| + 1;
      assert more[s.day].total == 1 < Truth(log + [s], s.day).total;
      assert Exact(now, log + [s]) <==> s.day !in now;
    }
  }

  lemma DaysSnoc(log: seq<Sample>, s: Sample)
    ensures DaysAfter(log + [s]) == Pruned(Rolled(DaysAfter(log), s), NewestDay(log + [s]))
  {
    assert (log + [s])[..|log|] == log;
  }

  lemma TruthCounts(log: seq<Sample>, day: int)
    ensures Truth(log, day).date == day && Truth(log, day).total == Count(log, day, day)
    ensures 0 <= Truth(log, day).good <= Truth(log, day).total
  {
    GoodIsCounted(log, day, day);
  }

  /** Over a whole run a day shows its true figures exactly when it was never dropped. */
  lemma {:induction false} ExactUnlessDropped(log: seq<Sample>, day: int)
    ensures Bar(DaysAfter(log), day) == Truth(log, day) <==>
            forall i :: 0 <= i <= |log| ==> !Dropped(log[..i], day)
    ensures Bar(DaysAfter(log), day) != Truth(log, day) ==> Bar(DaysAfter(log), day).total < Truth(log, day).total
  {
    assert log[..|log|] == log;
    if log == [] {
      TruthSnoc(log, Sample(0, day, true));
    } else {
      var was, s := log[..|log| - 1], log[|log| - 1];
      assert log == was + [s];
      ExactUnlessDropped(was, day);
      forall i | 0 <= i <= |was|
        ensures log[..i] == was[..i]
      {
      }
      assert was[..|was|] == was;
      NeverDroppedSnoc(log, day);
      BarStep(was, s, day);
    }
  }

  lemma NeverDroppedSnoc(log: seq<Sample>, day: int)
    requires log != []
    ensures (forall i :: 0 <= i <= |log| ==> !Dropped(log[..i], day)) <==>
            && (var was := log[..|log| - 1]; forall i :: 0 <= i <= |was| ==> !Dropped(was[..i], day))
            && !Dropped(log, day)
  {
    hide Dropped;
    var was := log[..|log| - 1];
    assert log[..|log|] == log;
    forall i | 0 <= i <= |was|
      ensures log[..i] == was[..i]
    {
    }
  }

  /** One sample: a day is lost when it is dropped, and what is missing stays missing. */
  lemma BarStep(was: seq<Sample>, s: Sample, day: int)
    requires Bar(DaysAfter(was), day) != Truth(was, day) ==> Bar(DaysAfter(was), day).total < Truth(was, day).total
    ensures var log := was + [s];
            && (Bar(DaysAfter(log), day) == Truth(log, day) <==>
                  Bar(DaysAfter(was), day) == Truth(was, day) && !Dropped(log, day))
            && (Bar(DaysAfter(log), day) != Truth(log, day) ==> Bar(DaysAfter(log), day).total < Truth(log, day).total)
  {
    RollupRefines(was);
    LogSnoc(was, s);
    TruthSnoc(was, s);
    TruthCounts(was, day);
    TruthCounts(was + [s], day);
    hide Truth, NewestDay, Count, Good;
  }

  /** n bars ending today, oldest first. */
  method LastDays(days: map<int, DayStat>, n: nat, today: int) returns (out: seq<DayStat>)
    ensures |out| == n
    ensures forall j :: 0 <= j < n ==> out[j] == Bar(days, today - (n - 1 - j))
  {
    out := [];
    for i := n downto 0
      invariant |out| == n - i
      invariant forall j :: 0 <= j < n - i ==> out[j] == Bar(days, today - (n - 1 - j))
    {
      var key := today - i;
      if key in days {
        out := out + [days[key]];
      } else {
        out := out + [DayStat(key, 0, 0)];
      }
    }
  }

  function SumTotal(bars: seq<DayStat>): int {
    if bars == [] then 0 else SumTotal(bars[..|bars| - 1]) + bars[|bars| - 1].total
  }

  function SumGood(bars: seq<DayStat>): int {
    if bars == [] then 0 else SumGood(bars[..|bars| - 1]) + bars[|bars| - 1].good
  }

  method UptimePct(bars: seq<DayStat>) returns (pct: real)
    ensures SumTotal(bars) == 0 ==> pct == 0.0
    ensures SumTotal(bars) != 0 ==> pct == SumGood(bars) as real / SumTotal(bars) as real * 100.0
  {
    var total, good := 0, 0;
    for i := 0 to |bars|
      invariant total == SumTotal(bars[..i]) && good == SumGood(bars[..i])
    {
      assert bars[..i + 1][..i] == bars[..i];
      total := total + bars[i].total;
      good := good + bars[i].good;
    }
    assert bars[..|bars|] == bars;
    if total == 0 {
      return 0.0;
    }
    pct := good as real / total as real * 100.0;
  }

  lemma {:induction false} CountSplit(log: seq<Sample>, lo: int, hi: int)
    requires lo <= hi
    ensures Count(log, lo, hi) == Count(log, lo, hi - 1) + Count(log, hi, hi)
    ensures Good(log, lo, hi) == Good(log, lo, hi - 1) + Good(log, hi, hi)
  {
    if log != [] {
      CountSplit(log[..|log| - 1], lo, hi);
    }
  }

  /** True bars add up to the log of their days. */
  lemma {:induction false} BarsSum(log: seq<Sample>, bars: seq<DayStat>, lo: int)
    requires forall j :: 0 <= j < |bars| ==> bars[j] == Truth(log, lo + j)
    ensures SumTotal(bars) == Count(log, lo, lo + |bars| - 1)
    ensures SumGood(bars) == Good(log, lo, lo + |bars| - 1)
  {
    if bars == [] {
      GoodIsCounted(log, lo, lo - 1);
    } else {
      BarsSum(log, bars[..|bars| - 1], lo);
      CountSplit(log, lo, lo + |bars| - 1);
    }
  }

  lemma BarRefines(days: map<int, DayStat>, log: seq<Sample>, key: int)
    requires Refines(days, log)
    ensures var bar, truth := Bar(days, key), Truth(log, key);
            && bar.date == truth.date == key
            && 0 <= bar.good <= bar.total <= truth.total && bar.good <= truth.good
            && (log == [] || key > NewestDay(log) - DAY_RETENTION ==> bar == truth)
  {
    TruthDate(log, key);
    if log == [] {
      TruthSnoc(log, Sample(0, key, true));
    }
    hide Count, Good, NewestDay;
  }

  /** The bars are the log's own. */
  predicate TrueBars(log: seq<Sample>, bars: seq<DayStat>, lo: int) {
    forall j :: 0 <= j < |bars| ==> bars[j] == Truth(log, lo + j)
  }

  /** No bar overstates, and each day of the 90 up to the newest sample shows its true
      figures. The percentage is the log's own whenever the bars are, and they all are unless
      the clock is behind the newest sample. */
  method Uptime(store: ProvStore, today: int) returns (bars: seq<DayStat>, pct: real)
    requires store.Valid()
    ensures |bars| == DAY_RETENTION
    ensures forall j :: 0 <= j < DAY_RETENTION ==>
      var truth := Truth(store.log, today - (DAY_RETENTION - 1) + j);
      && bars[j].date == truth.date
      && 0 <= bars[j].good <= bars[j].total <= truth.total && bars[j].good <= truth.good
      && (store.log == [] || truth.date > NewestDay(store.log) - DAY_RETENTION ==> bars[j] == truth)
    ensures store.log == [] || today >= NewestDay(store.log) ==>
      TrueBars(store.log, bars, today - (DAY_RETENTION - 1))
    ensures TrueBars(store.log, bars, today - (DAY_RETENTION - 1)) ==>
      var total := Count(store.log, today - (DAY_RETENTION - 1), today);
      pct == if total == 0 then 0.0
             else Good(store.log, today - (DAY_RETENTION - 1), today) as real / total as real * 100.0
  {
    hide Count, Good, NewestDay, DaysAfter, SumTotal, SumGood, Truth, Refines, Within, Newest;
    bars := LastDays(store.days, DAY_RETENTION, today);
    RollupRefines(store.log);
    forall j | 0 <= j < DAY_RETENTION
      ensures
        var truth := Truth(store.log, today - (DAY_RETENTION - 1) + j);
        && bars[j].date == truth.date == today - (DAY_RETENTION - 1) + j
        && 0 <= bars[j].good <= bars[j].total <= truth.total && bars[j].good <= truth.good
        && (store.log == [] || truth.date > NewestDay(store.log) - DAY_RETENTION ==> bars[j] == truth)
    {
      BarRefines(store.days, store.log, today - (DAY_RETENTION - 1) + j);
    }
    if TrueBars(store.log, bars, today - (DAY_RETENTION - 1)) {
      BarsSum(store.log, bars, today - (DAY_RETENTION - 1));
    }
    pct := UptimePct(bars);
  }

  // ---- A late sample brings a pruned day back with too little ----

  /** One sample on each of n days from day 0. */
  function Daily(n: nat): (log: seq<Sample>)
    ensures |log| == n && forall i :: 0 <= i < n ==> log[i] == Sample(24 * HOUR * i, i, true)
  {
    seq(n, i requires 0 <= i => Sample(24 * HOUR * i, i, true))
  }

  lemma DailySnoc(n: nat)
    requires n > 0
    ensures Daily(n) == Daily(n - 1) + [Sample(24 * HOUR * (n - 1), n - 1, true)]
  {
  }

  lemma {:induction false} DailyFills(n: nat)
    requires n <= DAY_RETENTION
    ensures |DaysAfter(Daily(n))| == n
    ensures forall k :: k in DaysAfter(Daily(n)) ==> 0 <= k < n
    ensures n > 0 ==> NewestDay(Daily(n)) == n - 1
  {
    if n > 0 {
      var was, s := Daily(n - 1), Sample(24 * HOUR * (n - 1), n - 1, true);
      DailySnoc(n);
      DailyFills(n - 1);
      DaysSnoc(was, s);
      LogSnoc(was, s);
      NewDayAdds(DaysAfter(was), s);
      hide DaysAfter, NewestDay, Daily, Count, Good, Rolled;
    }
  }

  lemma NewDayAdds(days: map<int, DayStat>, s: Sample)
    requires s.day !in days
    ensures |Rolled(days, s)| == |days| + 1
    ensures forall k :: k in Rolled(days, s) <==> k in days || k == s.day
  {
  }

  lemma {:induction false} DailyTruth(n: nat, k: int)
    ensures Truth(Daily(n), k) == DayStat(k, if 0 <= k < n then 1 else 0, if 0 <= k < n then 1 else 0)
  {
    if n > 0 {
      DailySnoc(n);
      DailyTruth(n - 1, k);
      TruthSnoc(Daily(n - 1), Sample(24 * HOUR * (n - 1), n - 1, true));
      hide Daily, Count, Good;
    }
  }

  /** 90 daily samples, one much later, and one for day 0 again: day 0 was pruned, comes
      back, and then shows one sample of its two. */
  lemma LateSampleUndercounts()
    ensures
      var log := Daily(DAY_RETENTION) + [Sample(24 * HOUR * 1000, 1000, true), Sample(0, 0, false)];
      0 in DaysAfter(log) && DaysAfter(log)[0] == DayStat(0, 1, 0) && Truth(log, 0) == DayStat(0, 2, 1)
  {
    var far, late := Sample(24 * HOUR * 1000, 1000, true), Sample(0, 0, false);
    var first := Daily(DAY_RETENTION);
    var second := first + [far];
    DailyFills(DAY_RETENTION);
    DailyTruth(DAY_RETENTION, 0);
    FarSamplePrunes(first, far);
    LogSnoc(second, late);
    DaysSnoc(second, late);
    TruthSnoc(first, far);
    TruthSnoc(second, late);
    assert first + [far, late] == second + [late];
    hide Daily, Count, Good, NewestDay, DaysAfter;
    var days := Rolled(DaysAfter(second), late);
    assert days.Keys == {0, 1000};
    assert days == Pruned(days, 1000);
  }

  lemma FarSamplePrunes(log: seq<Sample>, far: Sample)
    requires log != [] && |DaysAfter(log)| == DAY_RETENTION
    requires NewestDay(log) + DAY_RETENTION <= far.day
    ensures DaysAfter(log + [far]) == map[far.day := DayStat(far.day, 1, if far.ok then 1 else 0)]
    ensures NewestDay(log + [far]) == far.day
  {
    LogSnoc(log, far);
    RollupRefines(log);
    DaysSnoc(log, far);
    hide DaysAfter, NewestDay, Truth, Understates;
    var more := Rolled(DaysAfter(log), far);
    assert |more| == DAY_RETENTION + 1;
  }
}
