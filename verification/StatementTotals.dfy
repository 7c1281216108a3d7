/** The two ways of filling a statement's totals and per-model table, row by row or from
    pre-summed figures, and the sorted table made of either. Amounts are exact reals. */
module StatementTotals {

  const UNKNOWN := "(unknown)"

  datatype ModelRow = ModelRow(model: string, requests: int, billed: real)

  /** An itemised line, as far as the table layout depends on it. */
  datatype Line = Line(input: int, output: int, cacheRead: int)

  /** A request as Observe sees it. */
  datatype Request = Request(model: string, billed: real)

  function Label(model: string): string {
    if model == "" then UNKNOWN else model
  }

  /** Adds figures to a model's entry. */
  function Added(tally: map<string, ModelRow>, model: string, requests: int, billed: real): map<string, ModelRow> {
    var m := Label(model);
    var was := if m in tally then tally[m] else ModelRow(m, 0, 0.0);
    tally[m := ModelRow(m, was.requests + requests, was.billed + billed)]
  }

  function TallyRequests(rows: seq<Request>): map<string, ModelRow> {
    if rows == [] then map[]
    else Added(TallyRequests(rows[..|rows| - 1]), rows[|rows| - 1].model, 1, rows[|rows| - 1].billed)
  }

  function TallySums(rows: seq<ModelRow>): map<string, ModelRow> {
    if rows == [] then map[]
    else
      var r := rows[|rows| - 1];
      Added(TallySums(rows[..|rows| - 1]), r.model, r.requests, r.billed)
  }

  /** Go's string order. */
  predicate Less(a: string, b: string)
    decreases |a|
  {
    if b == "" then false
    else if a == "" then true
    else a[0] < b[0] || (a[0] == b[0] && Less(a[1..], b[1..]))
  }

  /** By amount, largest first, then by name. */
  predicate Before(a: ModelRow, b: ModelRow) {
    if a.billed != b.billed then a.billed > b.billed else Less(a.model, b.model)
  }

  predicate Sorted(rows: seq<ModelRow>) {
    forall i, j :: 0 <= i < j < |rows| ==> Before(rows[i], rows[j])
  }

  /** The table shows exactly the tally, in order. */
  predicate TableOf(rows: seq<ModelRow>, tally: map<string, ModelRow>) {
    && Sorted(rows)
    && (forall i :: 0 <= i < |rows| ==> rows[i].model in tally && rows[i] == tally[rows[i].model])
    && (forall m :: m in tally ==> tally[m] in rows)
  }

  predicate Named(tally: map<string, ModelRow>) {
    forall m :: m in tally ==> tally[m].model == m
  }

  class Statement {
    var requests: int
    var billed: real
    var byModel: map<string, ModelRow>
    var lines: seq<Line>
    var table: seq<ModelRow>
    var hasTokenDetail: bool

    constructor (lines: seq<Line>)
      ensures requests == 0 && billed == 0.0 && byModel == map[] && this.lines == lines && table == []
    {
      requests, billed, byModel, this.lines, table, hasTokenDetail := 0, 0.0, map[], lines, [], false;
    }

    method Observe(model: string, billedCny: real)
      modifies `requests, `billed, `byModel
      ensures requests == old(requests) + 1 && billed == old(billed) + billedCny
      ensures byModel == Added(old(byModel), model, 1, billedCny)
    {
      requests := requests + 1;
      billed := billed + billedCny;
      var m := if model == "" then UNKNOWN else model;
      if m !in byModel {
        byModel := byModel[m := ModelRow(m, 0, 0.0)];
      }
      var r := byModel[m];
      byModel := byModel[m := ModelRow(m, r.requests + 1, r.billed + billedCny)];
    }

    /** Takes one pre-summed row in; two rows may name one model. */
    method Merge(r: ModelRow)
      requires Label(r.model) in byModel ==> byModel[Label(r.model)].model == Label(r.model)
      modifies `byModel
      ensures byModel == Added(old(byModel), r.model, r.requests, r.billed)
    {
      var row := r;
      if row.model == "" {
        row := row.(model := UNKNOWN);
      }
      if row.model in byModel {
        var prev := byModel[row.model];
        byModel := byModel[row.model := prev.(requests := prev.requests + row.requests, billed := prev.billed + row.billed)];
        return;
      }
      byModel := byModel[row.model := row];
    }

    /** Replaces the tally with pre-summed figures. */
    method SetRangeTotals(requests: int, billedCny: real, rows: seq<ModelRow>)
      modifies `requests, `billed, `byModel
      ensures this.requests == requests && billed == billedCny
      ensures byModel == TallySums(rows)
    {
      this.requests, billed := requests, billedCny;
      byModel := map[];
      NothingSummed();
      hide TallySums, Added;
      for i := 0 to |rows|
        invariant byModel == TallySums(rows[..i])
        invariant this.requests == requests && billed == billedCny
      {
        TallySumsSnoc(rows[..i], rows[i]);
        assert rows[..i + 1] == rows[..i] + [rows[i]];
        Merge(rows[i]);
      }
      assert rows[..|rows|] == rows;
    }

    /** Whether some line to be printed carries token counts. */
    method FindTokenDetail()
      modifies `hasTokenDetail
      ensures hasTokenDetail <==>
              exists i :: 0 <= i < |lines| && (lines[i].input != 0 || lines[i].output != 0 || lines[i].cacheRead != 0)
    {
      hasTokenDetail := false;
      var kept := lines;
      for i := 0 to |kept|
        invariant !hasTokenDetail && kept == lines
        invariant forall j :: 0 <= j < i ==> kept[j].input == 0 && kept[j].output == 0 && kept[j].cacheRead == 0
      {
        if kept[i].input != 0 || kept[i].output != 0 || kept[i].cacheRead != 0 {
          hasTokenDetail := true;
          assert lines[i] == kept[i];
          return;
        }
      }
    }

    /** Finalises the statement. */
    method Rollup()
      requires Named(byModel)
      modifies `table, `hasTokenDetail
      ensures TableOf(table, byModel)
      ensures hasTokenDetail <==>
              exists i :: 0 <= i < |lines| && (lines[i].input != 0 || lines[i].output != 0 || lines[i].cacheRead != 0)
    {
      ghost var kept := lines;
      FindTokenDetail();
      assert lines == kept;
      var rows := SortedRows(byModel);
      table := rows;
      assert lines == kept;
    }
  }

  /** The rows of a tally, which is walked in no particular order, sorted. */
  method SortedRows(tally: map<string, ModelRow>) returns (rows: seq<ModelRow>)
    requires Named(tally)
    ensures TableOf(rows, tally)
  {
    var left := tally.Keys;
    rows := [];
    while left != {}
      invariant left <= tally.Keys
      invariant TableOf(rows, tally - left)
      decreases left
    {
      var m :| m in left;
      InsertTable(rows, tally, left, m);
      rows := Insert(rows, tally[m]);
      left := left - {m};
    }
    assert tally - left == tally;
  }

  /** Sorting, one row at a time. */
  function Insert(rows: seq<ModelRow>, r: ModelRow): seq<ModelRow> {
    if rows == [] then [r]
    else if Before(r, rows[0]) then [r] + rows
    else [rows[0]] + Insert(rows[1..], r)
  }

  // ---- The order is total, so the table is determined ----

  lemma {:induction false} LessTotal(a: string, b: string)
    ensures a != b ==> Less(a, b) || Less(b, a)
    ensures !(Less(a, b) && Less(b, a))
    ensures !Less(a, a)
    decreases |a|
  {
    if a != "" {
      LessTotal(a[1..], a[1..]);
    }
    if a != "" && b != "" {
      LessTotal(a[1..], b[1..]);
      assert a == [a[0]] + a[1..] && b == [b[0]] + b[1..];
    }
  }

  /** a is a proper beginning of b, or smaller where they first differ. */
  predicate Precedes(a: string, b: string) {
    exists k :: 0 <= k <= |a| && k < |b| && a[..k] == b[..k] && (k == |a| || a[k] < b[k])
  }

  lemma {:induction false} LessMeans(a: string, b: string)
    ensures Less(a, b) <==> Precedes(a, b)
    decreases |a|
  {
    if a != "" && b != "" {
      if a[0] == b[0] {
        LessMeans(a[1..], b[1..]);
        PrecedesTail(a, b);
      } else {
        assert a[..0] == b[..0];
        if Precedes(a, b) {
          FirstsDiffer(a, b);
        }
      }
    } else if b != "" {
      assert a[..0] == b[..0];
    }
  }

  lemma FirstsDiffer(a: string, b: string)
    requires a != "" && b != "" && Precedes(a, b)
    ensures a[0] <= b[0]
  {
    var k :| 0 <= k <= |a| && k < |b| && a[..k] == b[..k] && (k == |a| || a[k] < b[k]);
    if k > 0 {
      assert a[0] == a[..k][0] == b[..k][0] == b[0];
    }
  }

  lemma PrecedesTail(a: string, b: string)
    requires a != "" && b != "" && a[0] == b[0]
    ensures Precedes(a, b) <==> Precedes(a[1..], b[1..])
  {
    var x, y := a[1..], b[1..];
    if Precedes(a, b) {
      var k :| 0 <= k <= |a| && k < |b| && a[..k] == b[..k] && (k == |a| || a[k] < b[k]);
      assert k > 0;
      assert x[..k - 1] == a[..k][1..] == b[..k][1..] == y[..k - 1];
      assert 0 <= k - 1 <= |x| && k - 1 < |y| && (k - 1 == |x| || x[k - 1] < y[k - 1]);
    }
    if Precedes(x, y) {
      var k :| 0 <= k <= |x| && k < |y| && x[..k] == y[..k] && (k == |x| || x[k] < y[k]);
      assert a[..k + 1] == [a[0]] + x[..k] == [b[0]] + y[..k] == b[..k + 1];
      assert 0 <= k + 1 <= |a| && k + 1 < |b| && (k + 1 == |a| || a[k + 1] < b[k + 1]);
    }
  }

  lemma {:induction false} LessTransitive(a: string, b: string, c: string)
    requires Less(a, b) && Less(b, c)
    ensures Less(a, c)
    decreases |a|
  {
    if a != "" && a[0] == b[0] && b[0] == c[0] {
      LessTransitive(a[1..], b[1..], c[1..]);
    }
  }

  lemma BeforeTotal(a: ModelRow, b: ModelRow)
    ensures a.model != b.model ==> Before(a, b) || Before(b, a)
    ensures !(Before(a, b) && Before(b, a)) && !Before(a, a)
  {
    LessTotal(a.model, b.model);
    LessTotal(a.model, a.model);
  }

  lemma BeforeTransitive(a: ModelRow, b: ModelRow, c: ModelRow)
    requires Before(a, b) && Before(b, c)
    ensures Before(a, c)
  {
    if a.billed == b.billed == c.billed {
      LessTransitive(a.model, b.model, c.model);
    }
  }

  lemma {:induction false} InsertSorts(rows: seq<ModelRow>, r: ModelRow)
    requires Sorted(rows) && forall i :: 0 <= i < |rows| ==> rows[i].model != r.model
    ensures Sorted(Insert(rows, r))
    ensures forall x :: x in Insert(rows, r) <==> x in rows || x == r
  {
    hide Before;
    if rows != [] {
      BeforeTotal(r, rows[0]);
      if Before(r, rows[0]) {
        forall i | 1 <= i < |rows|
          ensures Before(r, rows[i])
        {
          BeforeTransitive(r, rows[0], rows[i]);
        }
      } else {
        InsertSorts(rows[1..], r);
        assert rows == [rows[0]] + rows[1..];
        var more := Insert(rows[1..], r);
        forall i | 0 <= i < |more|
          ensures Before(rows[0], more[i])
        {
          assert more[i] in more;
        }
      }
    }
  }

  lemma InsertTable(rows: seq<ModelRow>, tally: map<string, ModelRow>, left: set<string>, m: string)
    requires Named(tally) && TableOf(rows, tally - left) && m in tally && m in left
    ensures TableOf(Insert(rows, tally[m]), tally - (left - {m}))
  {
    InsertSorts(rows, tally[m]);
    hide Before, Sorted, Insert;
    var more, now := Insert(rows, tally[m]), tally - (left - {m});
    forall i | 0 <= i < |more|
      ensures more[i].model in now && more[i] == now[more[i].model]
    {
      assert more[i] in more;
    }
    forall x | x in now
      ensures now[x] in more
    {
      assert x != m ==> (tally - left)[x] in rows;
    }
  }

  /** Two tables of one tally are the same table. */
  lemma {:induction false} TableUnique(a: seq<ModelRow>, b: seq<ModelRow>, tally: map<string, ModelRow>)
    requires Named(tally) && TableOf(a, tally) && TableOf(b, tally)
    ensures a == b
    decreases |a|
  {
    hide Before;
    if a == [] {
      assert forall m :: m !in tally;
      HeadNamed(b, tally);
    } else {
      assert tally[a[0].model] in b;
      HeadsAgree(a, b, tally);
      var rest := tally - {a[0].model};
      TableTail(a, tally);
      TableTail(b, tally);
      TableUnique(a[1..], b[1..], rest);
      assert a == [a[0]] + a[1..] && b == [b[0]] + b[1..];
    }
  }

  lemma HeadNamed(rows: seq<ModelRow>, tally: map<string, ModelRow>)
    requires TableOf(rows, tally)
    ensures rows != [] ==> rows[0].model in tally
  {
  }

  lemma HeadsAgree(a: seq<ModelRow>, b: seq<ModelRow>, tally: map<string, ModelRow>)
    requires a != [] && b != [] && TableOf(a, tally) && TableOf(b, tally)
    ensures a[0] == b[0]
  {
    hide Before;
    assert tally[a[0].model] in b && tally[b[0].model] in a;
    var i :| 0 <= i < |b| && b[i] == a[0];
    var j :| 0 <= j < |a| && a[j] == b[0];
    BeforeTotal(a[0], b[0]);
  }

  lemma TableTail(a: seq<ModelRow>, tally: map<string, ModelRow>)
    requires a != [] && Named(tally) && TableOf(a, tally)
    ensures Named(tally - {a[0].model}) && TableOf(a[1..], tally - {a[0].model})
  {
    hide Before;
    var rest := tally - {a[0].model};
    forall i | 1 <= i < |a|
      ensures a[i].model in rest
    {
      BeforeTotal(a[0], a[0]);
      assert Before(a[0], a[i]);
    }
    forall m | m in rest
      ensures rest[m] in a[1..]
    {
      assert tally[m] in a;
    }
  }

  // ---- What a tally holds ----

  /** The figures of one model among some requests. */
  function CountOf(rows: seq<Request>, m: string): int {
    if rows == [] then 0
    else CountOf(rows[..|rows| - 1], m) + if Label(rows[|rows| - 1].model) == m then 1 else 0
  }

  function BilledOf(rows: seq<Request>, m: string): real {
    if rows == [] then 0.0
    else BilledOf(rows[..|rows| - 1], m) + if Label(rows[|rows| - 1].model) == m then rows[|rows| - 1].billed else 0.0
  }

  function TotalBilled(rows: seq<Request>): real {
    if rows == [] then 0.0 else TotalBilled(rows[..|rows| - 1]) + rows[|rows| - 1].billed
  }

  /** The same among pre-summed rows. */
  function SumCount(rows: seq<ModelRow>, m: string): int {
    if rows == [] then 0
    else SumCount(rows[..|rows| - 1], m) + if Label(rows[|rows| - 1].model) == m then rows[|rows| - 1].requests else 0
  }

  function SumBilled(rows: seq<ModelRow>, m: string): real {
    if rows == [] then 0.0
    else SumBilled(rows[..|rows| - 1], m) + if Label(rows[|rows| - 1].model) == m then rows[|rows| - 1].billed else 0.0
  }

  predicate Mentions(rows: seq<Request>, m: string) {
    exists i :: 0 <= i < |rows| && Label(rows[i].model) == m
  }

  predicate Names(rows: seq<ModelRow>, m: string) {
    exists i :: 0 <= i < |rows| && Label(rows[i].model) == m
  }

  lemma {:induction false} TallyRequestsHolds(rows: seq<Request>, m: string)
    ensures m in TallyRequests(rows) <==> Mentions(rows, m)
    ensures m in TallyRequests(rows) ==> TallyRequests(rows)[m] == ModelRow(m, CountOf(rows, m), BilledOf(rows, m))
    ensures !Mentions(rows, m) ==> CountOf(rows, m) == 0 && BilledOf(rows, m) == 0.0
  {
    if rows != [] {
      var before, r := rows[..|rows| - 1], rows[|rows| - 1];
      TallyRequestsHolds(before, m);
      assert Mentions(rows, m) <==> Mentions(before, m) || Label(r.model) == m;
    }
  }

  lemma {:induction false} TallySumsHolds(rows: seq<ModelRow>, m: string)
    ensures m in TallySums(rows) <==> Names(rows, m)
    ensures m in TallySums(rows) ==> TallySums(rows)[m] == ModelRow(m, SumCount(rows, m), SumBilled(rows, m))
    ensures !Names(rows, m) ==> SumCount(rows, m) == 0 && SumBilled(rows, m) == 0.0
  {
    if rows != [] {
      var before, r := rows[..|rows| - 1], rows[|rows| - 1];
      TallySumsHolds(before, m);
      assert Names(rows, m) <==> Names(before, m) || Label(r.model) == m;
    }
  }

  lemma NothingSummed()
    ensures TallySums([]) == map[]
  {
  }

  lemma TallySumsSnoc(rows: seq<ModelRow>, r: ModelRow)
    ensures TallySums(rows + [r]) == Added(TallySums(rows), r.model, r.requests, r.billed)
    ensures Label(r.model) in TallySums(rows) ==> TallySums(rows)[Label(r.model)].model == Label(r.model)
  {
    assert (rows + [r])[..|rows|] == rows;
    TallySumsHolds(rows, Label(r.model));
  }

  lemma NamedSums(rows: seq<ModelRow>)
    ensures Named(TallySums(rows))
  {
    forall m | m in TallySums(rows)
      ensures TallySums(rows)[m].model == m
    {
      TallySumsHolds(rows, m);
    }
  }

  lemma NamedRequests(rows: seq<Request>)
    ensures Named(TallyRequests(rows))
  {
    forall m | m in TallyRequests(rows)
      ensures TallyRequests(rows)[m].model == m
    {
      TallyRequestsHolds(rows, m);
    }
  }

  /** sums is a per-model pre-summing of the requests: the same models under their labels,
      with the same figures. One model may be spread over several rows. */
  ghost predicate PreSums(requests: seq<Request>, sums: seq<ModelRow>) {
    forall m ::
      && (Mentions(requests, m) <==> Names(sums, m))
      && CountOf(requests, m) == SumCount(sums, m)
      && BilledOf(requests, m) == SumBilled(sums, m)
  }

  /** The two ways of filling give one tally, and so one table. */
  lemma WaysAgree(requests: seq<Request>, sums: seq<ModelRow>, a: seq<ModelRow>, b: seq<ModelRow>)
    requires PreSums(requests, sums)
    requires TableOf(a, TallyRequests(requests)) && TableOf(b, TallySums(sums))
    ensures TallyRequests(requests) == TallySums(sums)
    ensures a == b
  {
    forall m
      ensures m in TallyRequests(requests) <==> m in TallySums(sums)
      ensures m in TallyRequests(requests) ==> TallyRequests(requests)[m] == TallySums(sums)[m]
    {
      TallyRequestsHolds(requests, m);
      TallySumsHolds(sums, m);
    }
    NamedRequests(requests);
    TableUnique(a, b, TallyRequests(requests));
  }

  // ---- The table sums to the total above it ----

  function TableBilled(rows: seq<ModelRow>): real {
    if rows == [] then 0.0 else rows[0].billed + TableBilled(rows[1..])
  }

  function TableCount(rows: seq<ModelRow>): int {
    if rows == [] then 0 else rows[0].requests + TableCount(rows[1..])
  }

  ghost function MapBilled(tally: map<string, ModelRow>): real {
    if tally == map[] then 0.0
    else
      var m :| m in tally;
      tally[m].billed + MapBilled(tally - {m})
  }

  ghost function MapCount(tally: map<string, ModelRow>): int {
    if tally == map[] then 0
    else
      var m :| m in tally;
      tally[m].requests + MapCount(tally - {m})
  }

  lemma {:induction false} MapBilledRemove(tally: map<string, ModelRow>, x: string)
    requires x in tally
    ensures MapBilled(tally) == tally[x].billed + MapBilled(tally - {x})
    decreases tally.Keys
  {
    var m :| m in tally && MapBilled(tally) == tally[m].billed + MapBilled(tally - {m});
    if m != x {
      MapBilledRemove(tally - {m}, x);
      MapBilledRemove(tally - {x}, m);
      assert tally - {m} - {x} == tally - {x} - {m};
    }
  }

  lemma {:induction false} MapCountRemove(tally: map<string, ModelRow>, x: string)
    requires x in tally
    ensures MapCount(tally) == tally[x].requests + MapCount(tally - {x})
    decreases tally.Keys
  {
    var m :| m in tally && MapCount(tally) == tally[m].requests + MapCount(tally - {m});
    if m != x {
      MapCountRemove(tally - {m}, x);
      MapCountRemove(tally - {x}, m);
      assert tally - {m} - {x} == tally - {x} - {m};
    }
  }

  lemma AddedTotals(tally: map<string, ModelRow>, model: string, requests: int, billed: real)
    ensures MapBilled(Added(tally, model, requests, billed)) == MapBilled(tally) + billed
    ensures MapCount(Added(tally, model, requests, billed)) == MapCount(tally) + requests
  {
    var m, more := Label(model), Added(tally, model, requests, billed);
    MapBilledRemove(more, m);
    MapCountRemove(more, m);
    if m in tally {
      MapBilledRemove(tally, m);
      MapCountRemove(tally, m);
      assert more - {m} == tally - {m};
    } else {
      assert more - {m} == tally;
    }
  }

  lemma {:induction false} TableTotals(rows: seq<ModelRow>, tally: map<string, ModelRow>)
    requires Named(tally) && TableOf(rows, tally)
    ensures TableBilled(rows) == MapBilled(tally) && TableCount(rows) == MapCount(tally)
    decreases |rows|
  {
    if rows == [] {
      assert forall m :: m !in tally;
      assert tally == map[];
    } else {
      var m := rows[0].model;
      TableTail(rows, tally);
      TableTotals(rows[1..], tally - {m});
      MapBilledRemove(tally, m);
      MapCountRemove(tally, m);
    }
  }

  lemma {:induction false} TallyTotals(rows: seq<Request>)
    ensures MapBilled(TallyRequests(rows)) == TotalBilled(rows)
    ensures MapCount(TallyRequests(rows)) == |rows|
  {
    if rows != [] {
      TallyTotals(rows[..|rows| - 1]);
      AddedTotals(TallyRequests(rows[..|rows| - 1]), rows[|rows| - 1].model, 1, rows[|rows| - 1].billed);
    }
  }

  /** The table lists the largest amounts first, equal amounts by name, and a request without
      a model under "(unknown)". */
  lemma TableOrder(table: seq<ModelRow>, requests: seq<Request>, i: nat, j: nat)
    requires TableOf(table, TallyRequests(requests)) && i < j < |table|
    ensures table[i].billed >= table[j].billed
    ensures table[i].billed == table[j].billed ==> Precedes(table[i].model, table[j].model)
    ensures table[i].model != "" && table[j].model != ""
  {
    LessMeans(table[i].model, table[j].model);
    Nameless(requests);
    hide Less, TallyRequests;
    assert Before(table[i], table[j]);
  }

  lemma Nameless(requests: seq<Request>)
    ensures "" !in TallyRequests(requests)
    ensures forall k :: 0 <= k < |requests| ==>
              (if requests[k].model == "" then "(unknown)" else requests[k].model) in TallyRequests(requests)
  {
    TallyRequestsHolds(requests, "");
    hide TallyRequests, CountOf, BilledOf;
    forall k | 0 <= k < |requests|
      ensures (if requests[k].model == "" then "(unknown)" else requests[k].model) in TallyRequests(requests)
    {
      TallyRequestsHolds(requests, Label(requests[k].model));
      assert Mentions(requests, Label(requests[k].model));
    }
  }

  /** Names in the table are unique, and its columns add up to the totals printed beneath
      it. */
  lemma TableAddsUp(requests: seq<Request>, table: seq<ModelRow>)
    requires TableOf(table, TallyRequests(requests))
    ensures TableBilled(table) == TotalBilled(requests) && TableCount(table) == |requests|
    ensures forall i, j :: 0 <= i < j < |table| ==> table[i].model != table[j].model
  {
    NamedRequests(requests);
    TableTotals(table, TallyRequests(requests));
    TallyTotals(requests);
    forall i, j | 0 <= i < j < |table|
      ensures table[i].model != table[j].model
    {
      BeforeTotal(table[i], table[i]);
    }
  }

  /** Both ways run on a statement each: same totals, same table. */
  method FillBothWays(requests: seq<Request>, sums: seq<ModelRow>, lines: seq<Line>)
    returns (walked: seq<ModelRow>, summed: seq<ModelRow>, total: real)
    requires PreSums(requests, sums)
    ensures walked == summed
    ensures TableOf(walked, TallyRequests(requests))
    ensures total == TotalBilled(requests) == TableBilled(walked)
  {
    var a := new Statement(lines);
    var b := new Statement(lines);
    for i := 0 to |requests|
      invariant fresh(a) && fresh(b) && a != b
      invariant a.byModel == TallyRequests(requests[..i])
      invariant a.requests == i && a.billed == TotalBilled(requests[..i])
    {
      assert requests[..i + 1][..i] == requests[..i];
      NamedRequests(requests[..i]);
      a.Observe(requests[i].model, requests[i].billed);
    }
    assert requests[..|requests|] == requests;
    NamedRequests(requests);
    a.Rollup();
    b.SetRangeTotals(|requests|, a.billed, sums);
    NamedSums(sums);
    b.Rollup();
    WaysAgree(requests, sums, a.table, b.table);
    TableAddsUp(requests, a.table);
    walked, summed, total := a.table, b.table, a.billed;
  }
}
