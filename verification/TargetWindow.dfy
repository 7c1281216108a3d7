/** The target-amount statement: locating the newest window of requests that adds up to a
    target, and filling the document from it. Amounts are exact reals. */
module TargetWindow {
  import opened Common

  /** A logged request; the log is kept in dollars. */
  datatype Rec = Rec(token: string, ts: int, usd: real)

  /** A window [start, end) and the amount the walk had accumulated. */
  datatype Window = Window(start: int, end: int, achieved: real)

  datatype Located = Found(window: Window) | Unreachable(achieved: real)

  predicate Eligible(r: Rec, masked: string, end: int) {
    r.token == masked && r.ts < end
  }

  /** A dollar amount in yuan. */
  function Cny(usd: real, rate: real): real { usd * rate }

  /** The total of the token's own rows in [from, end), converted at rate. */
  function Total(entries: seq<Rec>, masked: string, from: Option<int>, end: int, rate: real): real {
    if entries == [] then 0.0
    else
      var before, r := Total(entries[..|entries| - 1], masked, from, end, rate), entries[|entries| - 1];
      if Eligible(r, masked, end) && (from.None? || from.value <= r.ts) then before + Cny(r.usd, rate) else before
  }

  /** Newest first. */
  predicate Descending(entries: seq<Rec>) {
    forall i, j :: 0 <= i < j < |entries| ==> entries[i].ts >= entries[j].ts
  }

  predicate NonNegative(entries: seq<Rec>, rate: real) {
    rate >= 0.0 && forall r :: r in entries ==> r.usd >= 0.0
  }

  /** The walk from the newest row to the first that fills the target. */
  method RangeForTarget(entries: seq<Rec>, masked: string, target: real, rate: real, now: int)
    returns (located: Located)
    ensures located.Unreachable? ==>
              && located.achieved == Total(entries, masked, None, now, rate)
              && forall k :: 0 <= k < |entries| && Eligible(entries[k], masked, now) ==>
                   Total(entries[..k + 1], masked, None, now, rate) < target
    ensures located.Found? ==> exists k :: FillsAt(entries, masked, target, rate, now, located.window, k)
  {
    var achieved := 0.0;
    for k := 0 to |entries|
      invariant achieved == Total(entries[..k], masked, None, now, rate)
      invariant forall j :: 0 <= j < k && Eligible(entries[j], masked, now) ==>
                  Total(entries[..j + 1], masked, None, now, rate) < target
    {
      var rec := entries[k];
      assert entries[..k + 1][..k] == entries[..k];
      if rec.token != masked {
        continue;
      }
      if !(rec.ts < now) {
        continue;
      }
      achieved := achieved + Cny(rec.usd, rate);
      if achieved >= target {
        assert FillsAt(entries, masked, target, rate, now, Window(rec.ts, now, achieved), k);
        return Found(Window(rec.ts, now, achieved));
      }
    }
    assert entries[..|entries|] == entries;
    return Unreachable(achieved);
  }

  /** Row k is the first eligible one to bring the running total to the target. */
  predicate FillsAt(entries: seq<Rec>, masked: string, target: real, rate: real, now: int, w: Window, k: nat) {
    && k < |entries| && Eligible(entries[k], masked, now)
    && w == Window(entries[k].ts, now, Total(entries[..k + 1], masked, None, now, rate))
    && w.achieved >= target
    && forall j :: 0 <= j < k && Eligible(entries[j], masked, now) ==>
         Total(entries[..j + 1], masked, None, now, rate) < target
  }

  /** The plain dollar sum of a token's rows from one instant on and before another. */
  function Dollars(entries: seq<Rec>, masked: string, from: Option<int>, end: int): real {
    if entries == [] then 0.0
    else
      var r := entries[|entries| - 1];
      Dollars(entries[..|entries| - 1], masked, from, end)
      + if r.token == masked && r.ts < end && (from.None? || from.value <= r.ts) then r.usd else 0.0
  }

  /** A total is the rate times the dollars. */
  lemma {:induction false} TotalIsConverted(entries: seq<Rec>, masked: string, from: Option<int>, end: int, rate: real)
    ensures Total(entries, masked, from, end, rate) == Dollars(entries, masked, from, end) * rate
  {
    if entries != [] {
      var before, r := entries[..|entries| - 1], entries[|entries| - 1];
      TotalIsConverted(before, masked, from, end, rate);
      assert (Dollars(before, masked, from, end) + r.usd) * rate == Dollars(before, masked, from, end) * rate + r.usd * rate;
    }
  }

  lemma {:induction false} TotalAppend(a: seq<Rec>, b: seq<Rec>, masked: string, from: Option<int>, end: int, rate: real)
    ensures Total(a + b, masked, from, end, rate) ==
            Total(a, masked, from, end, rate) + Total(b, masked, from, end, rate)
  {
    if b == [] {
      assert a + b == a;
    } else {
      assert (a + b)[..|a + b| - 1] == a + b[..|b| - 1];
      TotalAppend(a, b[..|b| - 1], masked, from, end, rate);
    }
  }

  /** Rows no older than from: the bound changes nothing. */
  lemma {:induction false} TotalAllNewer(a: seq<Rec>, masked: string, from: int, end: int, rate: real)
    requires forall r :: r in a ==> from <= r.ts
    ensures Total(a, masked, Some(from), end, rate) == Total(a, masked, None, end, rate)
  {
    if a != [] {
      assert a[|a| - 1] in a;
      assert forall r :: r in a[..|a| - 1] ==> r in a;
      TotalAllNewer(a[..|a| - 1], masked, from, end, rate);
    }
  }

  /** Rows all older than from contribute nothing. */
  lemma {:induction false} TotalAllOlder(a: seq<Rec>, masked: string, from: int, end: int, rate: real)
    requires forall r :: r in a ==> r.ts < from
    ensures Total(a, masked, Some(from), end, rate) == 0.0
  {
    if a != [] {
      assert a[|a| - 1] in a;
      assert forall r :: r in a[..|a| - 1] ==> r in a;
      TotalAllOlder(a[..|a| - 1], masked, from, end, rate);
    }
  }

  lemma {:induction false} TotalNonNegative(a: seq<Rec>, masked: string, from: Option<int>, end: int, rate: real)
    requires NonNegative(a, rate)
    ensures Total(a, masked, from, end, rate) >= 0.0
  {
    if a != [] {
      assert a[|a| - 1] in a;
      assert forall r :: r in a[..|a| - 1] ==> r in a;
      TotalNonNegative(a[..|a| - 1], masked, from, end, rate);
      assert Cny(a[|a| - 1].usd, rate) >= 0.0;
    }
  }

  /** The rows at exactly one instant. */
  function TiedAt(entries: seq<Rec>, ts: int): seq<Rec> {
    if entries == [] then []
    else TiedAt(entries[..|entries| - 1], ts) + if entries[|entries| - 1].ts == ts then [entries[|entries| - 1]] else []
  }

  lemma TiedSnoc(before: seq<Rec>, r: Rec, ts: int)
    ensures TiedAt(before + [r], ts) == if r.ts == ts then TiedAt(before, ts) + [r] else TiedAt(before, ts)
  {
    assert (before + [r])[..|before|] == before;
  }

  lemma TotalSnoc(before: seq<Rec>, r: Rec, masked: string, from: Option<int>, end: int, rate: real)
    ensures Total(before + [r], masked, from, end, rate) ==
            Total(before, masked, from, end, rate)
            + if Eligible(r, masked, end) && (from.None? || from.value <= r.ts) then Cny(r.usd, rate) else 0.0
  {
    assert (before + [r])[..|before|] == before;
  }

  /** In descending rows after one at from, those still in the window are tied at it. */
  lemma {:induction false} RestIsTied(rest: seq<Rec>, masked: string, from: int, end: int, rate: real)
    requires forall i :: 0 <= i < |rest| ==> rest[i].ts <= from
    ensures Total(rest, masked, Some(from), end, rate) == Total(TiedAt(rest, from), masked, None, end, rate)
  {
    if rest != [] {
      var before, r := rest[..|rest| - 1], rest[|rest| - 1];
      RestIsTied(before, masked, from, end, rate);
      assert rest == before + [r];
      hide Total, TiedAt;
      TiedSnoc(before, r, from);
      TotalSnoc(before, r, masked, Some(from), end, rate);
      TotalSnoc(TiedAt(before, from), r, masked, None, end, rate);
    }
  }

  /** What a found window means for newest-first rows: the document's own filter over
      [start, end) totals at least the target, everything strictly newer than start
      totals less, and the document exceeds the walked amount by exactly the older rows
      that share start's instant. */
  lemma WindowMeetsTarget(entries: seq<Rec>, masked: string, target: real, rate: real, now: int, w: Window, k: nat)
    requires Descending(entries) && NonNegative(entries, rate) && target > 0.0
    requires FillsAt(entries, masked, target, rate, now, w, k)
    ensures Total(entries, masked, Some(w.start), w.end, rate) >= target
    ensures Total(entries, masked, Some(w.start + 1), w.end, rate) < target
    ensures Total(entries, masked, Some(w.start), w.end, rate) ==
            w.achieved + Total(TiedAt(entries[k + 1..], w.start), masked, None, w.end, rate)
    ensures Dollars(entries, masked, Some(w.start), w.end) * rate >= target
    ensures Dollars(entries, masked, Some(w.start + 1), w.end) * rate < target
    ensures w.end == now && entries[k].token == masked && w.start == entries[k].ts < now
  {
    TotalIsConverted(entries, masked, Some(w.start), w.end, rate);
    TotalIsConverted(entries, masked, Some(w.start + 1), w.end, rate);
    hide Dollars, Total;
    var a, b := entries[..k + 1], entries[k + 1..];
    assert entries == a + b;
    TotalAppend(a, b, masked, Some(w.start), w.end, rate);
    TotalAllNewer(a, masked, w.start, w.end, rate);
    RestIsTied(b, masked, w.start, w.end, rate);
    assert NonNegative(b, rate) by {
      assert forall r :: r in b ==> r in entries;
    }
    TotalNonNegative(b, masked, Some(w.start), w.end, rate);
    var n := FirstNotNewer(entries, w.start, k);
    StrictlyNewer(entries, masked, target, rate, now, w, k, n);
  }

  lemma FirstNotNewer(entries: seq<Rec>, start: int, k: nat) returns (n: nat)
    requires Descending(entries) && k < |entries| && entries[k].ts == start
    ensures n <= k
    ensures forall j :: 0 <= j < n ==> entries[j].ts > start
    ensures forall j :: n <= j < |entries| ==> entries[j].ts <= start
  {
    n := k;
    while n > 0 && entries[n - 1].ts == start
      invariant n <= k
      invariant entries[n].ts == start
    {
      n := n - 1;
    }
  }

  lemma StrictlyNewer(entries: seq<Rec>, masked: string, target: real, rate: real, now: int, w: Window, k: nat, n: nat)
    requires target > 0.0 && FillsAt(entries, masked, target, rate, now, w, k) && n <= k
    requires forall j :: 0 <= j < n ==> entries[j].ts > w.start
    requires forall j :: n <= j < |entries| ==> entries[j].ts <= w.start
    ensures Total(entries, masked, Some(w.start + 1), w.end, rate) < target
  {
    var a, b := entries[..n], entries[n..];
    assert entries == a + b;
    TotalAppend(a, b, masked, Some(w.start + 1), w.end, rate);
    TotalAllNewer(a, masked, w.start + 1, w.end, rate);
    TotalAllOlder(b, masked, w.start + 1, w.end, rate);
    BelowTarget(entries, masked, target, rate, now, k, n);
  }

  lemma {:induction false} BelowTarget(entries: seq<Rec>, masked: string, target: real, rate: real, now: int, k: nat, n: nat)
    requires target > 0.0 && n <= k <= |entries|
    requires forall j :: 0 <= j < k && Eligible(entries[j], masked, now) ==>
               Total(entries[..j + 1], masked, None, now, rate) < target
    ensures Total(entries[..n], masked, None, now, rate) < target
  {
    if n > 0 && !Eligible(entries[n - 1], masked, now) {
      assert entries[..n][..n - 1] == entries[..n - 1];
      BelowTarget(entries, masked, target, rate, now, k, n - 1);
    }
  }

  /** A positive target is out of reach exactly when all eligible rows together fall
      short of it. */
  lemma UnreachableMeans(entries: seq<Rec>, masked: string, target: real, rate: real, now: int)
    requires NonNegative(entries, rate) && target > 0.0
    ensures (exists k, w :: FillsAt(entries, masked, target, rate, now, w, k)) <==>
            Dollars(entries, masked, None, now) * rate >= target
  {
    TotalIsConverted(entries, masked, None, now, rate);
    if w, k :| FillsAt(entries, masked, target, rate, now, w, k) {
      var a, b := entries[..k + 1], entries[k + 1..];
      assert entries == a + b;
      TotalAppend(a, b, masked, None, now, rate);
      assert NonNegative(b, rate) by {
        assert forall r :: r in b ==> r in entries;
      }
      TotalNonNegative(b, masked, None, now, rate);
    } else {
      NeverFilled(entries, masked, target, rate, now, |entries|);
      assert entries[..|entries|] == entries;
    }
  }

  lemma {:induction false} NeverFilled(entries: seq<Rec>, masked: string, target: real, rate: real, now: int, n: nat)
    requires target > 0.0 && n <= |entries|
    requires forall k, w :: !FillsAt(entries, masked, target, rate, now, w, k)
    ensures forall j :: 0 <= j < n && Eligible(entries[j], masked, now) ==>
              Total(entries[..j + 1], masked, None, now, rate) < target
    ensures Total(entries[..n], masked, None, now, rate) < target
  {
    if n > 0 {
      NeverFilled(entries, masked, target, rate, now, n - 1);
      assert entries[..n][..n - 1] == entries[..n - 1];
      var w := Window(entries[n - 1].ts, now, Total(entries[..n], masked, None, now, rate));
      assert !FillsAt(entries, masked, target, rate, now, w, n - 1);
    }
  }

  // ---- Filling the document ----

  predicate InRange(r: Rec, start: int, end: int) { start <= r.ts < end }

  function RowsIn(entries: seq<Rec>, start: int, end: int): seq<Rec> {
    if entries == [] then []
    else RowsIn(entries[..|entries| - 1], start, end)
         + if InRange(entries[|entries| - 1], start, end) then [entries[|entries| - 1]] else []
  }

  function UsdOf(rows: seq<Rec>): real {
    if rows == [] then 0.0 else UsdOf(rows[..|rows| - 1]) + rows[|rows| - 1].usd
  }

  function Reversed<T>(s: seq<T>): seq<T> {
    if s == [] then [] else [s[|s| - 1]] + Reversed(s[..|s| - 1])
  }

  /** The statement's walk: totals over every row of the window, and the newest
      maxLines of them, turned around to read forward. */
  method FillByTarget(entries: seq<Rec>, start: int, end: int, withLines: bool, maxLines: nat)
    returns (rangeUsd: real, requests: nat, lines: seq<Rec>)
    ensures rangeUsd == UsdOf(RowsIn(entries, start, end))
    ensures requests == |RowsIn(entries, start, end)|
    ensures !withLines ==> lines == []
    ensures withLines ==>
              var rows := RowsIn(entries, start, end);
              lines == Reversed(if |rows| <= maxLines then rows else rows[..maxLines])
  {
    rangeUsd, requests, lines := 0.0, 0, [];
    for k := 0 to |entries|
      invariant rangeUsd == UsdOf(RowsIn(entries[..k], start, end))
      invariant requests == |RowsIn(entries[..k], start, end)|
      invariant !withLines ==> lines == []
      invariant withLines ==>
                  var rows := RowsIn(entries[..k], start, end);
                  lines == if |rows| <= maxLines then rows else rows[..maxLines]
    {
      var rec := entries[k];
      ghost var rows := RowsIn(entries[..k], start, end);
      assert entries[..k + 1][..k] == entries[..k];
      if rec.ts < start || !(rec.ts < end) {
        assert rows + [] == rows;
        continue;
      }
      assert (rows + [rec])[..|rows|] == rows;
      rangeUsd := rangeUsd + rec.usd;
      requests := requests + 1;
      if withLines && |lines| < maxLines {
        lines := lines + [rec];
      }
    }
    assert entries[..|entries|] == entries;
    lines := ReverseLines(lines);
  }

  /** slices.Reverse. */
  method ReverseLines<T>(s: seq<T>) returns (r: seq<T>)
    ensures r == Reversed(s)
  {
    r := [];
    for k := 0 to |s|
      invariant r == Reversed(s[..k])
    {
      assert s[..k + 1][..k] == s[..k];
      r := [s[k]] + r;
    }
    assert s[..|s|] == s;
  }

  lemma {:induction false} ReversedAt<T>(s: seq<T>, i: nat)
    requires i < |s|
    ensures |Reversed(s)| == |s| && Reversed(s)[i] == s[|s| - 1 - i]
  {
    if |s| > 1 {
      ReversedAt(s[..|s| - 1], if i == 0 then 0 else i - 1);
    }
  }

  /** The printed lines read forward in time. */
  lemma LinesReadForward(rows: seq<Rec>, i: nat, j: nat)
    requires Descending(rows) && i < j < |rows|
    ensures |Reversed(rows)| == |rows| && Reversed(rows)[i].ts <= Reversed(rows)[j].ts
  {
    ReversedAt(rows, i);
    ReversedAt(rows, j);
  }

  lemma RowsSnoc(before: seq<Rec>, r: Rec, start: int, end: int)
    ensures RowsIn(before + [r], start, end) == RowsIn(before, start, end) + if InRange(r, start, end) then [r] else []
    ensures UsdOf(RowsIn(before + [r], start, end)) ==
            UsdOf(RowsIn(before, start, end)) + if InRange(r, start, end) then r.usd else 0.0
  {
    assert (before + [r])[..|before|] == before;
    var rows := RowsIn(before, start, end);
    assert (rows + [r])[..|rows|] == rows && rows + [] == rows;
  }

  lemma Distribute(x: real, y: real, rate: real)
    ensures Cny(0.0, rate) == 0.0
    ensures Cny(x + y, rate) == Cny(x, rate) + Cny(y, rate)
  {
  }

  predicate OwnRows(entries: seq<Rec>, masked: string) {
    forall i :: 0 <= i < |entries| ==> entries[i].token == masked
  }

  /** The document's total is the walk's own total over the window, converted, when the
      scan holds the token's rows only. */
  lemma {:induction false} DocumentTotal(entries: seq<Rec>, masked: string, start: int, end: int, rate: real)
    requires OwnRows(entries, masked)
    ensures Cny(UsdOf(RowsIn(entries, start, end)), rate) == Total(entries, masked, Some(start), end, rate)
  {
    hide Cny;
    if entries == [] {
      Distribute(0.0, 0.0, rate);
    } else {
      var before, r := entries[..|entries| - 1], entries[|entries| - 1];
      DocumentTotal(before, masked, start, end, rate);
      assert entries == before + [r];
      hide Total, RowsIn, UsdOf;
      RowsSnoc(before, r, start, end);
      TotalSnoc(before, r, masked, Some(start), end, rate);
      Distribute(UsdOf(RowsIn(before, start, end)), r.usd, rate);
    }
  }

  /** End to end: a target statement either reports the whole spend, short of the target,
      or prints a total that meets it. */
  method TargetStatement(entries: seq<Rec>, masked: string, target: real, rate: real, now: int, maxLines: nat)
    returns (located: Located, totalCny: real, lines: seq<Rec>)
    requires Descending(entries) && NonNegative(entries, rate) && target > 0.0
    requires OwnRows(entries, masked)
    ensures located.Unreachable? <==> Dollars(entries, masked, None, now) * rate < target
    ensures located.Found? ==>
              && target <= totalCny == Dollars(entries, masked, Some(located.window.start), now) * rate
              && |lines| <= maxLines
  {
    hide Descending, NonNegative, Total, RowsIn, UsdOf, Reversed, OwnRows, Dollars;
    TotalIsConverted(entries, masked, None, now, rate);
    located := RangeForTarget(entries, masked, target, rate, now);
    totalCny, lines := 0.0, [];
    if located.Found? {
      ghost var k :| FillsAt(entries, masked, target, rate, now, located.window, k);
      UnreachableMeans(entries, masked, target, rate, now);
      WindowMeetsTarget(entries, masked, target, rate, now, located.window, k);
      TotalIsConverted(entries, masked, Some(located.window.start), now, rate);
      var usd, requests;
      usd, requests, lines := FillByTarget(entries, located.window.start, located.window.end, true, maxLines);
      DocumentTotal(entries, masked, located.window.start, located.window.end, rate);
      totalCny := Cny(usd, rate);
      ghost var rows := RowsIn(entries, located.window.start, located.window.end);
      ReversedLength(if |rows| <= maxLines then rows else rows[..maxLines]);
    } else {
      BelowTarget(entries, masked, target, rate, now, |entries|, |entries|);
      assert entries[..|entries|] == entries;
    }
  }

  lemma {:induction false} ReversedLength<T>(s: seq<T>)
    ensures |Reversed(s)| == |s|
  {
    if s != [] {
      ReversedAt(s, 0);
    }
  }
}
