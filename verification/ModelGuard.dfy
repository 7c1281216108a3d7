/** The names a requested model may be served under, and the served name a mistyped
    one most likely meant. */
module ModelGuard {
  import opened EditDistance

  predicate IsNameChar(c: char) {
    'a' <= c <= 'z' || '0' <= c <= '9'
  }

  /** Lower case, as far as it can yield a name character: the ASCII capitals, the dotted
      capital I and the Kelvin sign. */
  function Lower(c: char): char {
    if 'A' <= c <= 'Z' then (c as int + 32) as char
    else if c == '\U{0130}' then 'i'
    else if c == '\U{212A}' then 'k'
    else c
  }

  /** The characters of a model id that carry identity. */
  function Normalize(s: string): string {
    if s == "" then ""
    else Normalize(Front(s)) + if IsNameChar(Lower(Last(s))) then [Lower(Last(s))] else ""
  }

  method NormalizeModelName(s: string) returns (b: string)
    ensures b == Normalize(s)
  {
    b := "";
    for i := 0 to |s|
      invariant b == Normalize(s[..i])
    {
      var r := Lower(s[i]);
      assert Front(s[..i + 1]) == s[..i] && Last(s[..i + 1]) == s[i];
      if IsNameChar(r) {
        b := b + [r];
      }
    }
    assert s[..|s|] == s;
  }

  /** Letter by letter: ASCII letters survive in lower case, digits as they are, and so do
      the two other characters whose lower case is an ASCII letter; the rest is dropped. */
  lemma NormalizeChar(c: char)
    ensures 'a' <= c <= 'z' || '0' <= c <= '9' ==> Normalize([c]) == [c]
    ensures 'A' <= c <= 'Z' ==> Normalize([c]) == [c - 'A' + 'a']
    ensures c == '\U{0130}' ==> Normalize([c]) == "i"
    ensures c == '\U{212A}' ==> Normalize([c]) == "k"
    ensures !('a' <= c <= 'z' || '0' <= c <= '9' || 'A' <= c <= 'Z' || c == '\U{0130}' || c == '\U{212A}') ==> Normalize([c]) == ""
  {
    assert Front([c]) == "" && Last([c]) == c;
    assert Normalize("") == "";
  }

  lemma {:induction false} NormalizeAppend(s: string, t: string)
    ensures Normalize(s + t) == Normalize(s) + Normalize(t)
  {
    if t == "" {
      assert s + t == s;
    } else {
      assert Front(s + t) == s + Front(t) && Last(s + t) == Last(t);
      NormalizeAppend(s, Front(t));
    }
  }

  /** The same letters in either case, and any other characters between them, make no
      difference. */
  predicate SameButForCase(a: char, b: char) {
    a == b || ('A' <= a <= 'Z' && b == a - 'A' + 'a') || ('A' <= b <= 'Z' && a == b - 'A' + 'a')
  }

  lemma {:induction false} CaseMakesNoDifference(s: string, t: string)
    requires |s| == |t| && forall i :: 0 <= i < |s| ==> SameButForCase(s[i], t[i])
    ensures Normalize(s) == Normalize(t)
  {
    if s != "" {
      CaseMakesNoDifference(Front(s), Front(t));
    }
  }

  predicate OccursAt(s: string, sub: string, i: nat) {
    i + |sub| <= |s| && s[i..i + |sub|] == sub
  }

  predicate Contains(s: string, sub: string) {
    exists i :: 0 <= i <= |s| && OccursAt(s, sub, i)
  }

  /** The edits a slip may cost: a quarter of the name, but at least two. */
  function Budget(w: string): nat {
    if |w| / 4 < 2 then 2 else |w| / 4
  }

  /** The three ways a served name can explain a request, most certain first. */
  datatype Pass = Exact | Contained | Near

  predicate Eligible(pass: Pass, w: string, m: string) {
    var n := Normalize(m);
    match pass
    case Exact => n == w
    case Contained => Contains(n, w) || Contains(w, n)
    case Near => Distance(w, n) <= Budget(w)
  }

  /** Smaller is better. */
  function Score(pass: Pass, w: string, m: string): nat {
    if pass == Near then Distance(w, Normalize(m)) else |Normalize(m)|
  }

  /** Name i is the best eligible one among the first k, and the first such. */
  predicate FirstBest(pass: Pass, w: string, available: seq<string>, k: nat, i: nat) {
    && i < k <= |available|
    && Eligible(pass, w, available[i])
    && (forall j :: 0 <= j < k && Eligible(pass, w, available[j]) ==>
          Score(pass, w, available[i]) <= Score(pass, w, available[j]))
    && (forall j :: 0 <= j < i && Eligible(pass, w, available[j]) ==>
          Score(pass, w, available[i]) < Score(pass, w, available[j]))
  }

  predicate NoneEligible(pass: Pass, w: string, available: seq<string>, k: nat)
    requires k <= |available|
  {
    forall j :: 0 <= j < k ==> !Eligible(pass, w, available[j])
  }

  /** best answers the pass: the first best name, or "" when nothing is eligible. */
  ghost predicate Answers(pass: Pass, w: string, available: seq<string>, k: nat, best: string)
    requires k <= |available|
  {
    if best == "" then NoneEligible(pass, w, available, k)
    else exists i: nat :: FirstBest(pass, w, available, k, i) && best == available[i]
  }

  /** One pass over exact or contained names, preferring the shortest. The empty string
      doubles as "nothing yet", so the answer is exact for non-empty served names. */
  method ShortestMatch(pass: Pass, w: string, available: seq<string>) returns (best: string)
    requires pass != Near
    ensures best == "" || best in available
    ensures "" !in available ==> Answers(pass, w, available, |available|, best)
  {
    best := "";
    var bestScore := 0;
    for k := 0 to |available|
      invariant best == "" || best in available
      invariant best != "" ==> bestScore == -|Normalize(best)|
      invariant "" !in available ==> Answers(pass, w, available, k, best)
    {
      var m := available[k];
      var n := NormalizeModelName(m);
      var matches := match pass { case Exact => n == w case _ => Contains(n, w) || Contains(w, n) };
      assert matches == Eligible(pass, w, m);
      ghost var had := best;
      if matches {
        var score := -|n|;
        if best == "" || score > bestScore {
          best, bestScore := m, score;
        }
      }
      if "" !in available {
        Extends(pass, w, available, k, had, best);
      }
    }
  }

  lemma Extends(pass: Pass, w: string, available: seq<string>, k: nat, had: string, best: string)
    requires k < |available| && "" !in available
    requires Answers(pass, w, available, k, had)
    requires var m := available[k];
             best == if Eligible(pass, w, m) && (had == "" || Score(pass, w, m) < Score(pass, w, had)) then m else had
    ensures Answers(pass, w, available, k + 1, best)
  {
    hide Eligible, Score;
    var m := available[k];
    assert m in available;
    if had == "" {
      if Eligible(pass, w, m) {
        assert FirstBest(pass, w, available, k + 1, k);
      }
    } else {
      var i: nat :| FirstBest(pass, w, available, k, i) && had == available[i];
      if best == m && Eligible(pass, w, m) && Score(pass, w, m) < Score(pass, w, had) {
        assert FirstBest(pass, w, available, k + 1, k);
      } else {
        assert FirstBest(pass, w, available, k + 1, i);
      }
    }
  }

  /** The suggestion for a name nothing serves. */
  method ClosestModelName(want: string, available: seq<string>) returns (best: string)
    ensures best == "" || best in available
    ensures available == [] || Normalize(want) == "" ==> best == ""
    ensures Normalize(want) != "" && "" !in available ==> Suggests(Normalize(want), available, best)
  {
    if |available| == 0 {
      return "";
    }
    var w := NormalizeModelName(want);
    if w == "" {
      return "";
    }
    best := ShortestMatch(Exact, w, available);
    if best != "" {
      return;
    }
    best := ShortestMatch(Contained, w, available);
    if best != "" {
      return;
    }
    var budget := |w| / 4;
    if budget < 2 {
      budget := 2;
    }
    var bestDist := budget + 1;
    for k := 0 to |available|
      invariant best == "" || best in available
      invariant "" !in available ==> bestDist == if best == "" then budget + 1 else Distance(w, Normalize(best))
      invariant bestDist <= budget + 1
      invariant "" !in available ==> Answers(Near, w, available, k, best)
    {
      var m := available[k];
      var n := NormalizeModelName(m);
      var d := Levenshtein(w, n);
      ghost var had := best;
      if d < bestDist {
        best, bestDist := m, d;
      }
      assert m in available;
      if "" !in available {
        if had != "" {
          var i: nat :| FirstBest(Near, w, available, k, i) && had == available[i];
        }
        Extends(Near, w, available, k, had, best);
      }
    }
  }

  /** best is what the rules, in their order, make of the normalised request w. */
  ghost predicate Suggests(w: string, available: seq<string>, best: string) {
    var all := |available|;
    if !NoneEligible(Exact, w, available, all) then best != "" && Answers(Exact, w, available, all, best)
    else if !NoneEligible(Contained, w, available, all) then best != "" && Answers(Contained, w, available, all, best)
    else Answers(Near, w, available, all, best)
  }

  /** The rules leave no choice: spellings that normalise alike get one suggestion. */
  lemma SuggestionIsUnique(w: string, available: seq<string>, one: string, other: string)
    requires Suggests(w, available, one) && Suggests(w, available, other)
    ensures one == other
  {
    hide Eligible, Score;
    var all := |available|;
    var pass := if !NoneEligible(Exact, w, available, all) then Exact
                else if !NoneEligible(Contained, w, available, all) then Contained
                else Near;
    if one != "" && other != "" {
      var i: nat :| FirstBest(pass, w, available, all, i) && one == available[i];
      var j: nat :| FirstBest(pass, w, available, all, j) && other == available[j];
    }
  }

  /** A guessed name is within budget, and no served name takes fewer edits to reach. */
  lemma GuessIsNearest(w: string, available: seq<string>, best: string, other: string, n: nat)
    requires Suggests(w, available, best) && best != ""
    requires NoneEligible(Exact, w, available, |available|)
    requires NoneEligible(Contained, w, available, |available|)
    requires other in available && Reaches(w, Normalize(other), n)
    ensures Reaches(w, Normalize(best), Distance(w, Normalize(best)))
    ensures Distance(w, Normalize(best)) <= 2 || Distance(w, Normalize(best)) <= |w| / 4
    ensures Distance(w, Normalize(best)) <= n
  {
    hide Distance, Reaches, Normalize, Contains;
    DistanceIsLeast(w, Normalize(best));
    DistanceIsLeast(w, Normalize(other));
    var j :| 0 <= j < |available| && available[j] == other;
    var i: nat :| FirstBest(Near, w, available, |available|, i) && best == available[i];
    if !Eligible(Near, w, other) {
      assert Distance(w, Normalize(other)) > Budget(w);
    }
  }

  /** b occurs in a. */
  predicate PartOf(b: string, a: string) {
    exists i, j :: 0 <= i <= j <= |a| && a[i..j] == b
  }

  lemma ContainsMeans(a: string, b: string)
    ensures Contains(a, b) <==> PartOf(b, a)
  {
    if Contains(a, b) {
      var i :| 0 <= i <= |a| && OccursAt(a, b, i);
      assert a[i..i + |b|] == b;
    }
    if PartOf(b, a) {
      var i, j :| 0 <= i <= j <= |a| && a[i..j] == b;
      assert OccursAt(a, b, i);
    }
  }

  /** No suggestion exactly when nothing is close: no served name is the request in other
      spelling, contains it or is part of it, and each takes more edits than two, or than a
      quarter of the request's length. */
  lemma NothingClose(w: string, available: seq<string>, best: string)
    requires Suggests(w, available, best) && "" !in available
    ensures best == "" <==> forall m :: m in available ==>
              && Normalize(m) != w && !PartOf(w, Normalize(m)) && !PartOf(Normalize(m), w)
              && Distance(w, Normalize(m)) > 2 && Distance(w, Normalize(m)) > |w| / 4
  {
    hide Distance, Normalize, Contains, PartOf;
    forall m | m in available
      ensures Contains(Normalize(m), w) == PartOf(w, Normalize(m)) && Contains(w, Normalize(m)) == PartOf(Normalize(m), w)
    {
      ContainsMeans(Normalize(m), w);
      ContainsMeans(w, Normalize(m));
    }
    if best == "" {
      forall m | m in available
        ensures !Eligible(Exact, w, m) && !Eligible(Contained, w, m) && !Eligible(Near, w, m)
      {
        var j :| 0 <= j < |available| && available[j] == m;
      }
    } else {
      BestIsEligible(w, available, best);
    }
  }

  lemma BestIsEligible(w: string, available: seq<string>, best: string)
    requires Suggests(w, available, best) && best != ""
    ensures best in available && (Eligible(Exact, w, best) || Eligible(Contained, w, best) || Eligible(Near, w, best))
  {
    hide Eligible, Score;
    var all := |available|;
    var pass := if !NoneEligible(Exact, w, available, all) then Exact
                else if !NoneEligible(Contained, w, available, all) then Contained
                else Near;
    var i: nat :| FirstBest(pass, w, available, all, i) && best == available[i];
  }

  /** Among names that contain the request or are part of it, where none is the request
      itself, the one with the shortest spelling is suggested, and the first such. */
  lemma ShortestExplains(w: string, available: seq<string>, best: string, other: string)
    requires Suggests(w, available, best)
    requires forall m :: m in available ==> Normalize(m) != w
    requires other in available && (PartOf(w, Normalize(other)) || PartOf(Normalize(other), w))
    ensures best in available && (PartOf(w, Normalize(best)) || PartOf(Normalize(best), w))
    ensures |Normalize(best)| <= |Normalize(other)|
  {
    hide Distance, Normalize, Contains, PartOf;
    ContainsMeans(Normalize(other), w);
    ContainsMeans(w, Normalize(other));
    ContainsMeans(Normalize(best), w);
    ContainsMeans(w, Normalize(best));
    var all := |available|;
    var j :| 0 <= j < all && available[j] == other;
    assert Eligible(Contained, w, available[j]);
    forall k | 0 <= k < all
      ensures !Eligible(Exact, w, available[k])
    {
      assert available[k] in available;
    }
    assert !NoneEligible(Contained, w, available, all);
    var i: nat :| FirstBest(Contained, w, available, all, i) && best == available[i];
    assert Score(Contained, w, best) <= Score(Contained, w, other);
  }

  // ---- The names a catalog may list a model under ----

  predicate IsWhite(c: char) {
    || '\t' <= c <= '\r' || c == ' ' || c == '\U{85}' || c == '\U{A0}' || c == '\U{1680}'
    || '\U{2000}' <= c <= '\U{200A}' || c == '\U{2028}' || c == '\U{2029}' || c == '\U{202F}'
    || c == '\U{205F}' || c == '\U{3000}'
  }

  function TrimLeft(s: string): string {
    if s != "" && IsWhite(s[0]) then TrimLeft(s[1..]) else s
  }

  function TrimRight(s: string): string {
    if s != "" && IsWhite(Last(s)) then TrimRight(Front(s)) else s
  }

  function Trim(s: string): string {
    TrimRight(TrimLeft(s))
  }

  function IndexOf(s: string, c: char): (i: int)
    ensures -1 <= i < |s|
  {
    if s == "" then -1
    else if s[0] == c then 0
    else
      var j := IndexOf(s[1..], c);
      if j < 0 then -1 else j + 1
  }

  function LastIndexOf(s: string, c: char): (i: int)
    ensures -1 <= i < |s|
    ensures i >= 0 ==> s[i] == c
    ensures forall j :: i < j < |s| ==> s[j] != c
  {
    if s == "" then -1
    else if Last(s) == c then |s| - 1
    else LastIndexOf(Front(s), c)
  }

  /** The requested name without a parenthesised variant and without the context-mode
      suffix strip removes. */
  function BaseName(model: string, strip: string -> string): string {
    var t := Trim(model);
    var i := IndexOf(t, '(');
    strip(if i > 0 then Trim(t[..i]) else t)
  }

  lemma {:induction false} TrimLeftDrops(lead: string, rest: string)
    requires (forall i :: 0 <= i < |lead| ==> IsWhite(lead[i])) && rest != "" && !IsWhite(rest[0])
    ensures TrimLeft(lead + rest) == rest
  {
    if lead == "" {
      assert lead + rest == rest;
    } else {
      assert (lead + rest)[1..] == lead[1..] + rest;
      TrimLeftDrops(lead[1..], rest);
    }
  }

  lemma {:induction false} TrimRightDrops(core: string, trail: string)
    requires (forall i :: 0 <= i < |trail| ==> IsWhite(trail[i])) && core != "" && !IsWhite(Last(core))
    ensures TrimRight(core + trail) == core
  {
    if trail == "" {
      assert core + trail == core;
    } else {
      assert Front(core + trail) == core + Front(trail) && Last(core + trail) == Last(trail);
      TrimRightDrops(core, Front(trail));
    }
  }

  /** Trimming takes the white space off both ends and nothing else. */
  lemma TrimMeans(lead: string, core: string, trail: string)
    requires forall i :: 0 <= i < |lead| ==> IsWhite(lead[i])
    requires forall i :: 0 <= i < |trail| ==> IsWhite(trail[i])
    requires core != "" && !IsWhite(core[0]) && !IsWhite(Last(core))
    ensures Trim(lead + core + trail) == core
  {
    assert lead + core + trail == lead + (core + trail);
    TrimLeftDrops(lead, core + trail);
    TrimRightDrops(core, trail);
  }

  lemma WhiteIs()
    ensures forall c :: c in " \t\n\r" ==> IsWhite(c)
    ensures forall c :: '!' <= c <= '~' ==> !IsWhite(c)
  {
  }

  lemma {:induction false} IndexOfMeans(s: string, c: char, t: string)
    requires c !in s
    ensures IndexOf(s + [c] + t, c) == |s|
  {
    if s == "" {
      assert s + [c] + t == [c] + t;
    } else {
      assert (s + [c] + t)[1..] == s[1..] + [c] + t;
      IndexOfMeans(s[1..], c, t);
    }
  }

  lemma {:induction false} NoIndex(s: string, c: char)
    requires c !in s
    ensures IndexOf(s, c) == -1
  {
    if s != "" {
      NoIndex(s[1..], c);
    }
  }

  /** The base is what stands before a parenthesised variant, or the whole name without one. */
  lemma BaseNameMeans(name: string, variant: string, strip: string -> string)
    requires name != "" && '(' !in name && !IsWhite(name[0]) && !IsWhite(Last(name))
    requires !IsWhite(Last("(" + variant))
    ensures BaseName(name, strip) == strip(name)
    ensures BaseName(name + "(" + variant, strip) == strip(name)
  {
    var whole := name + "(" + variant;
    assert whole == name + ("(" + variant);
    assert whole[0] == name[0] && Last(whole) == Last("(" + variant);
    assert "" + name + "" == name && "" + whole + "" == whole;
    TrimMeans("", name, "");
    TrimMeans("", whole, "");
    IndexOfMeans(name, '(', variant);
    NoIndex(name, '(');
    assert whole[..|name|] == name;
  }

  /** A non-empty name obtained by cutting the base at none or one of its dashes. */
  predicate Variant(base: string, c: string) {
    c != "" && (c == Trim(base) || exists i :: 0 < i < |base| && base[i] == '-' && c == Trim(base[..i]))
  }

  predicate Distinct(out: seq<string>) {
    forall i, j :: 0 <= i < j < |out| ==> out[i] != out[j]
  }

  /** Longer names first, the requested one aside. */
  predicate Descending(out: seq<string>) {
    forall i, j :: 1 <= i < j < |out| ==> |out[j]| <= |out[i]|
  }

  /** c is cut at a dash beyond position i. */
  predicate CutBeyond(base: string, i: int, c: string) {
    exists j :: 0 < j < |base| && i < j && base[j] == '-' && c == Trim(base[..j])
  }

  /** Everything a catalog may list the model under, most specific first. */
  method CodexModelCandidates(model: string, strip: string -> string) returns (out: seq<string>)
    ensures out != [] && out[0] == model
    ensures Distinct(out) && Descending(out)
    ensures forall c :: c in out <==> c == model || Variant(BaseName(model, strip), c)
  {
    hide Trim, Distinct, Descending;
    var base := Trim(model);
    var paren := IndexOf(base, '(');
    if paren > 0 {
      base := Trim(base[..paren]);
    }
    base := strip(base);
    out := Add([model], base, |Trim(base)|);
    var i := LastIndexOf(base, '-');
    ghost var cut := |base|;
    assert base[..cut] == base;
    while i > 0
      invariant -1 <= i < cut <= |base|
      invariant i >= 0 ==> base[i] == '-'
      invariant forall j :: i < j < cut ==> base[j] != '-'
      invariant out != [] && out[0] == model && Distinct(out) && Descending(out)
      invariant forall k :: 1 <= k < |out| ==> |Trim(base[..cut])| <= |out[k]|
      invariant forall c :: c in out <==> c == model || (c != "" && (c == Trim(base) || CutBeyond(base, i, c)))
      decreases i
    {
      TrimMonotone(base[..i], base[..cut]);
      var next := LastIndexOf(base[..i], '-');
      CutStep(base, i, next);
      out := Add(out, base[..i], |Trim(base[..cut])|);
      cut, i := i, next;
    }
    assert forall c :: CutBeyond(base, i, c) <==> CutBeyond(base, 0, c);
  }

  lemma CutStep(base: string, i: nat, next: int)
    requires 0 < i < |base| && base[i] == '-' && next < i
    requires forall j :: next < j < i && j >= 0 ==> base[j] != '-'
    ensures forall c :: CutBeyond(base, next, c) <==> CutBeyond(base, i, c) || c == Trim(base[..i])
  {
    hide Trim;
  }

  /** Appends the trimmed name unless it is empty or known; bound is no shorter than the
      new name and no longer than any earlier one. */
  method Add(out: seq<string>, m: string, ghost bound: nat) returns (more: seq<string>)
    requires out != [] && Distinct(out) && Descending(out)
    requires |Trim(m)| <= bound && forall k :: 1 <= k < |out| ==> bound <= |out[k]|
    ensures more != [] && more[0] == out[0] && Distinct(more) && Descending(more)
    ensures forall c :: c in more <==> c in out || (c != "" && c == Trim(m))
    ensures forall k :: 1 <= k < |more| ==> |Trim(m)| <= |more[k]|
  {
    var t := Trim(m);
    more := if t != "" && t !in out then out + [t] else out;
  }

  lemma {:induction false} TrimRightMonotone(p: string, q: string)
    requires p <= q
    ensures |TrimRight(p)| <= |TrimRight(q)|
  {
    if p != q {
      if IsWhite(Last(q)) {
        TrimRightMonotone(p, Front(q));
      } else {
        TrimRightShrinks(p);
      }
    }
  }

  lemma {:induction false} TrimRightShrinks(s: string)
    ensures |TrimRight(s)| <= |s|
  {
    if s != "" && IsWhite(Last(s)) {
      TrimRightShrinks(Front(s));
    }
  }

  lemma {:induction false} TrimLeftMonotone(p: string, q: string)
    requires p <= q
    ensures TrimLeft(p) <= TrimLeft(q)
  {
    if p != "" && IsWhite(p[0]) {
      TrimLeftMonotone(p[1..], q[1..]);
    }
  }

  /** Trimming a shorter cut of a name never yields a longer one. */
  lemma TrimMonotone(p: string, q: string)
    requires p <= q
    ensures |Trim(p)| <= |Trim(q)|
  {
    TrimLeftMonotone(p, q);
    TrimRightMonotone(TrimLeft(p), TrimLeft(q));
  }

  /** Whether a catalog lists some name of the model. */
  ghost predicate ListedUnder(model: string, strip: string -> string, catalog: set<string>) {
    exists c :: c in catalog && (c == model || Variant(BaseName(model, strip), c))
  }

  method CodexModelServable(model: string, strip: string -> string, catalog: set<string>) returns (ok: bool)
    ensures ok <==> ListedUnder(model, strip, catalog)
  {
    var candidates := CodexModelCandidates(model, strip);
    for k := 0 to |candidates|
      invariant forall j :: 0 <= j < k ==> candidates[j] !in catalog
    {
      if candidates[k] in catalog {
        assert candidates[k] in candidates;
        return true;
      }
    }
    return false;
  }
}
