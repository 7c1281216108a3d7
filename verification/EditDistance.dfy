/** The edit distance behind the model-name suggestion: the two-row table computes it,
    it is the least number of single-character edits, and it is a metric. */
module EditDistance {

  function Min(a: nat, b: nat): nat { if b < a then b else a }

  function Front<T>(s: seq<T>): seq<T>
    requires s != []
  {
    s[..|s| - 1]
  }

  function Last<T>(s: seq<T>): T
    requires s != []
  {
    s[|s| - 1]
  }

  function Cost(x: char, y: char): nat { if x == y then 0 else 1 }

  function Distance(a: string, b: string): nat
    decreases |a| + |b|
  {
    if a == [] then |b|
    else if b == [] then |a|
    else
      Min(Min(Distance(Front(a), b) + 1, Distance(a, Front(b)) + 1),
          Distance(Front(a), Front(b)) + Cost(Last(a), Last(b)))
  }

  lemma {:induction false} Borders(a: string, b: string)
    ensures a == [] ==> Distance(a, b) == |b|
    ensures b == [] ==> Distance(a, b) == |a|
    ensures forall i :: 0 <= i <= |a| ==> Distance(a[..i], b[..0]) == i
    ensures forall j :: 0 <= j <= |b| ==> Distance(a[..0], b[..j]) == j
  {
  }

  lemma Cell(a: string, b: string, i: nat, j: nat)
    requires 1 <= i <= |a| && 1 <= j <= |b|
    ensures Distance(a[..i], b[..j]) ==
            Min(Min(Distance(a[..i - 1], b[..j]) + 1, Distance(a[..i], b[..j - 1]) + 1),
                Distance(a[..i - 1], b[..j - 1]) + Cost(a[i - 1], b[j - 1]))
  {
    hide Distance;
    var x, y := a[..i], b[..j];
    assert Front(x) == a[..i - 1] && Front(y) == b[..j - 1];
    Recurrence(x, y);
  }

  lemma {:induction false} Recurrence(a: string, b: string)
    requires a != [] && b != []
    ensures Distance(a, b) ==
            Min(Min(Distance(Front(a), b) + 1, Distance(a, Front(b)) + 1),
                Distance(Front(a), Front(b)) + Cost(Last(a), Last(b)))
  {
  }

  /** The table of the source: two rows, overwritten in turn and swapped. */
  method Levenshtein(a: string, b: string) returns (d: nat)
    ensures d == Distance(a, b)
  {
    hide Distance;
    Borders(a, b);
    if a == b {
      Identity(a, b);
      return 0;
    }
    if |a| == 0 {
      return |b|;
    }
    if |b| == 0 {
      return |a|;
    }
    var prev, cur := new nat[|b| + 1], new nat[|b| + 1];
    for j := 0 to |b| + 1
      invariant forall k :: 0 <= k < j ==> prev[k] == k
    {
      prev[j] := j;
    }
    for i := 1 to |a| + 1
      invariant fresh(prev) && fresh(cur) && prev != cur && prev.Length == cur.Length == |b| + 1
      invariant forall k :: 0 <= k <= |b| ==> prev[k] == Distance(a[..i - 1], b[..k])
    {
      cur[0] := i;
      for j := 1 to |b| + 1
        invariant forall k :: 0 <= k <= |b| ==> prev[k] == Distance(a[..i - 1], b[..k])
        invariant forall k :: 0 <= k < j ==> cur[k] == Distance(a[..i], b[..k])
      {
        var cost := if a[i - 1] == b[j - 1] then 0 else 1;
        var m := prev[j] + 1;
        if cur[j - 1] + 1 < m {
          m := cur[j - 1] + 1;
        }
        if prev[j - 1] + cost < m {
          m := prev[j - 1] + cost;
        }
        Cell(a, b, i, j);
        cur[j] := m;
      }
      prev, cur := cur, prev;
    }
    assert a[..|a|] == a && b[..|b|] == b;
    d := prev[|b|];
  }

  // ---- Distance is a metric ----

  lemma {:induction false} Identity(a: string, b: string)
    ensures Distance(a, b) == 0 <==> a == b
    decreases |a| + |b|
  {
    if a != [] && b != [] {
      assert a == Front(a) + [Last(a)] && b == Front(b) + [Last(b)];
      Identity(Front(a), Front(b));
    }
  }

  lemma {:induction false} Symmetry(a: string, b: string)
    ensures Distance(a, b) == Distance(b, a)
    decreases |a| + |b|
  {
    if a != [] && b != [] {
      Symmetry(Front(a), b);
      Symmetry(a, Front(b));
      Symmetry(Front(a), Front(b));
    }
  }

  /** Between the difference and the sum of the lengths. */
  lemma {:induction false} LengthBounds(a: string, b: string)
    ensures |a| <= Distance(a, b) + |b| && |b| <= Distance(a, b) + |a|
    ensures Distance(a, b) <= |a| + |b|
    decreases |a| + |b|
  {
    if a != [] && b != [] {
      LengthBounds(Front(a), b);
      LengthBounds(a, Front(b));
      LengthBounds(Front(a), Front(b));
    }
  }

  lemma {:induction false} Triangle(a: string, b: string, c: string)
    ensures Distance(a, c) <= Distance(a, b) + Distance(b, c)
    decreases |a| + |b| + |c|
  {
    if a == [] || c == [] {
      LengthBounds(a, b);
      LengthBounds(b, c);
    } else if b == [] {
      LengthBounds(a, c);
    } else {
      Triangle(Front(a), b, c);
      Triangle(a, b, Front(c));
      Triangle(a, Front(b), c);
      Triangle(a, Front(b), Front(c));
      Triangle(Front(a), Front(b), c);
      Triangle(Front(a), Front(b), Front(c));
    }
  }

  // ---- Distance counts edits ----

  /** y is x with one character inserted at i. */
  predicate InsertAt(x: string, y: string, i: nat) {
    i <= |x| && |y| == |x| + 1 && y == x[..i] + [y[i]] + x[i..]
  }

  predicate SubstituteAt(x: string, y: string, i: nat) {
    i < |x| && |y| == |x| && y == x[..i] + [y[i]] + x[i + 1..]
  }

  /** y is x after inserting, deleting or replacing one character. */
  ghost predicate OneEdit(x: string, y: string) {
    exists i: nat :: InsertAt(x, y, i) || InsertAt(y, x, i) || SubstituteAt(x, y, i)
  }

  /** b can be reached from a by n edits. */
  ghost predicate Reaches(a: string, b: string, n: nat)
    decreases n
  {
    if n == 0 then a == b
    else exists m: string :: OneEdit(a, m) && Reaches(m, b, n - 1)
  }

  /** One more character costs at most one more edit. */
  lemma {:induction false} Extend(a: string, b: string, z: char)
    ensures Distance(a + [z], b) <= Distance(a, b) + 1
    ensures Distance(b, a + [z]) <= Distance(b, a) + 1
  {
    assert Front(a + [z]) == a;
    if b == [] {
      LengthBounds(a, b);
      LengthBounds(b, a);
    }
  }

  lemma {:induction false} SamePrefix(p: string, x: string, y: string)
    ensures Distance(p + x, p + y) <= Distance(x, y)
    decreases |x| + |y|
  {
    hide Distance;
    Unfold(x, y);
    if x != [] {
      SamePrefix(p, Front(x), y);
      Extend(p + Front(x), p + y, Last(x));
      assert p + Front(x) + [Last(x)] == p + x;
    }
    if y != [] {
      SamePrefix(p, x, Front(y));
      Extend(p + Front(y), p + x, Last(y));
      assert p + Front(y) + [Last(y)] == p + y;
    }
    if x != [] && y != [] {
      SamePrefix(p, Front(x), Front(y));
      assert Front(p + x) == p + Front(x) && Front(p + y) == p + Front(y);
      Unfold(p + x, p + y);
    } else if x == [] && y == [] {
      Identity(p + x, p + y);
    }
  }

  lemma {:induction false} Unfold(a: string, b: string)
    ensures a != [] && b == [] ==> Distance(a, b) == Distance(Front(a), b) + 1
    ensures a == [] && b != [] ==> Distance(a, b) == Distance(a, Front(b)) + 1
    ensures a != [] && b != [] ==>
              && Distance(a, b) <= Distance(Front(a), Front(b)) + Cost(Last(a), Last(b))
              && (|| Distance(a, b) == Distance(Front(a), b) + 1
                  || Distance(a, b) == Distance(a, Front(b)) + 1
                  || Distance(a, b) == Distance(Front(a), Front(b)) + Cost(Last(a), Last(b)))
  {
  }

  lemma {:induction false} SameSuffix(a: string, b: string, s: string)
    ensures Distance(a + s, b + s) <= Distance(a, b)
  {
    if s == [] {
      assert a + s == a && b + s == b;
    } else {
      assert Front(a + s) == a + Front(s) && Front(b + s) == b + Front(s);
      hide Distance;
      SameSuffix(a, b, Front(s));
      Unfold(a + s, b + s);
    }
  }

  lemma OneEditIsNear(x: string, y: string)
    requires OneEdit(x, y)
    ensures Distance(x, y) <= 1
  {
    hide Distance;
    var i: nat :| InsertAt(x, y, i) || InsertAt(y, x, i) || SubstituteAt(x, y, i);
    if InsertAt(x, y, i) {
      InsertIsNear(x, y, i);
    } else if InsertAt(y, x, i) {
      InsertIsNear(y, x, i);
      Symmetry(x, y);
    } else {
      SubstituteIsNear(x, y, i);
    }
  }

  lemma SubstituteIsNear(x: string, y: string, i: nat)
    requires SubstituteAt(x, y, i)
    ensures Distance(x, y) <= 1
  {
    hide Distance;
    var p, s := x[..i], x[i + 1..];
    var from, to := [x[i]], [y[i]];
    assert x == p + (from + s) && y == p + (to + s);
    SamePrefix(p, from + s, to + s);
    SameSuffix(from, to, s);
    Unfold(from, to);
    assert Front(from) == [] && Front(to) == [];
    Identity([], []);
  }

  lemma InsertIsNear(x: string, y: string, i: nat)
    requires InsertAt(x, y, i)
    ensures Distance(x, y) <= 1
  {
    hide Distance;
    var p, s, z := x[..i], x[i..], [y[i]];
    assert [] + s == s;
    SameSuffix([], z, s);
    LengthBounds([], z);
    SamePrefix(p, s, z + s);
    assert x == p + s;
    assert y == p + (z + s);
  }

  /** No sequence of edits is shorter than the distance. */
  lemma {:induction false} NoShorterScript(a: string, b: string, n: nat)
    requires Reaches(a, b, n)
    ensures Distance(a, b) <= n
    decreases n
  {
    hide Distance, OneEdit;
    if n == 0 {
      Identity(a, b);
    } else {
      var m: string :| OneEdit(a, m) && Reaches(m, b, n - 1);
      NoShorterScript(m, b, n - 1);
      OneEditIsNear(a, m);
      Triangle(a, m, b);
    }
  }

  lemma {:induction false} ReachesThen(a: string, m: string, b: string, n: nat)
    requires Reaches(a, m, n) && OneEdit(m, b)
    ensures Reaches(a, b, n + 1)
    decreases n
  {
    hide Distance, OneEdit;
    if n == 0 {
      assert Reaches(b, b, 0);
    } else {
      var k: string :| OneEdit(a, k) && Reaches(k, m, n - 1);
      ReachesThen(k, m, b, n - 1);
    }
  }

  lemma {:induction false} ReachesUnder(a: string, b: string, z: char, n: nat)
    requires Reaches(a, b, n)
    ensures Reaches(a + [z], b + [z], n)
    decreases n
  {
    hide Distance, OneEdit;
    if n > 0 {
      var m: string :| OneEdit(a, m) && Reaches(m, b, n - 1);
      ReachesUnder(m, b, z, n - 1);
      EditUnder(a, m, z);
    }
  }

  lemma EditUnder(x: string, y: string, z: char)
    requires OneEdit(x, y)
    ensures OneEdit(x + [z], y + [z])
  {
    var i: nat :| InsertAt(x, y, i) || InsertAt(y, x, i) || SubstituteAt(x, y, i);
    if InsertAt(x, y, i) {
      InsertUnder(x, y, z, i);
    } else if InsertAt(y, x, i) {
      InsertUnder(y, x, z, i);
    } else {
      assert (x + [z])[..i] == x[..i] && (x + [z])[i + 1..] == x[i + 1..] + [z];
      assert SubstituteAt(x + [z], y + [z], i);
    }
  }

  lemma InsertUnder(x: string, y: string, z: char, i: nat)
    requires InsertAt(x, y, i)
    ensures InsertAt(x + [z], y + [z], i)
  {
    assert (x + [z])[..i] == x[..i] && (x + [z])[i..] == x[i..] + [z];
  }

  lemma DropLast(a: string)
    requires a != []
    ensures OneEdit(a, Front(a)) && OneEdit(Front(a), a)
  {
    assert InsertAt(Front(a), a, |a| - 1);
  }

  /** The distance is reached by a script of exactly that many edits. */
  lemma {:induction false} ScriptExists(a: string, b: string)
    ensures Reaches(a, b, Distance(a, b))
    decreases |a| + |b|
  {
    hide Distance, Reaches;
    Unfold(a, b);
    if a == [] && b == [] {
      NoEdits(a);
    } else if a != [] && Distance(a, b) == Distance(Front(a), b) + 1 {
      ScriptExists(Front(a), b);
      DropLast(a);
      ThenReaches(a, Front(a), b, Distance(Front(a), b));
    } else if b != [] && Distance(a, b) == Distance(a, Front(b)) + 1 {
      ScriptExists(a, Front(b));
      DropLast(b);
      ReachesThen(a, Front(b), b, Distance(a, Front(b)));
    } else {
      ScriptExists(Front(a), Front(b));
      ReplaceLast(a, b, Distance(Front(a), Front(b)));
    }
  }

  lemma {:induction false} NoEdits(a: string)
    ensures Distance(a, a) == 0 && Reaches(a, a, 0)
  {
    Identity(a, a);
  }

  lemma ThenReaches(a: string, m: string, b: string, n: nat)
    requires OneEdit(a, m) && Reaches(m, b, n)
    ensures Reaches(a, b, n + 1)
  {
  }

  lemma ReplaceLast(a: string, b: string, n: nat)
    requires a != [] && b != [] && Reaches(Front(a), Front(b), n)
    ensures Reaches(a, b, n + Cost(Last(a), Last(b)))
  {
    hide Reaches;
    var x, y := Last(a), Last(b);
    ReachesUnder(Front(a), Front(b), x, n);
    assert Front(a) + [x] == a && Front(b) + [y] == b;
    if x != y {
      assert SubstituteAt(Front(b) + [x], b, |b| - 1);
      ReachesThen(a, Front(b) + [x], b, n);
    }
  }

  /** The distance is the least number of single-character edits between two names. */
  lemma DistanceIsLeast(a: string, b: string)
    ensures Reaches(a, b, Distance(a, b))
    ensures forall n: nat :: Reaches(a, b, n) ==> Distance(a, b) <= n
  {
    ScriptExists(a, b);
    forall n: nat | Reaches(a, b, n)
      ensures Distance(a, b) <= n
    {
      NoShorterScript(a, b, n);
    }
  }
}
