/** The edit distance computed with a single column, and what makes it a distance. */
module Levenshtein {

  function Min3(a: nat, b: nat, c: nat): nat {
    if a < b then if a < c then a else c else if b < c then b else c
  }

  function Differs(a: char, b: char): nat {
    if a == b then 0 else 1
  }

  /** The least number of insertions, deletions and changes of one character that turn `s` into `t`. */
  function Distance(s: string, t: string): nat
    decreases |s| + |t|
  {
    if s == "" then |t|
    else if t == "" then |s|
    else
      var s', t' := s[..|s| - 1], t[..|t| - 1];
      Min3(Distance(s', t) + 1, Distance(s, t') + 1, Distance(s', t') + Differs(s[|s| - 1], t[|t| - 1]))
  }

  /** Column `x` of the table of distances between prefixes. */
  ghost predicate IsColumn(column: seq<nat>, s1: string, s2: string, x: nat)
    requires x <= |s2|
  {
    |column| == |s1| + 1 && forall y :: 0 <= y <= |s1| ==> column[y] == Distance(s1[..y], s2[..x])
  }

  /** Overwrites one column for each character of `s2`. */
  method Levenshtein(s1: string, s2: string) returns (d: nat)
    ensures d == Distance(s1, s2)
  {
    hide Distance;
    var column := new nat[|s1| + 1](y => 0);
    for y := 1 to |s1| + 1
      invariant column[0] == 0 && forall k :: 0 <= k < y ==> column[k] == k
    {
      column[y] := y;
    }
    FirstColumn(column[..], s1, s2);
    for x := 1 to |s2| + 1
      invariant IsColumn(column[..], s1, s2, x - 1)
    {
      NextColumn(column, s1, s2, x);
    }
    assert s1[..|s1|] == s1 && s2[..|s2|] == s2;
    d := column[|s1|];
  }

  lemma FirstColumn(column: seq<nat>, s1: string, s2: string)
    requires |column| == |s1| + 1 && forall y :: 0 <= y <= |s1| ==> column[y] == y
    ensures IsColumn(column, s1, s2, 0)
  {
    assert s2[..0] == "";
  }

  /** Turns column `x - 1` into column `x`; `lastdiag` keeps the entry that was overwritten. */
  method NextColumn(column: array<nat>, s1: string, s2: string, x: nat)
    requires 1 <= x <= |s2| && IsColumn(column[..], s1, s2, x - 1)
    modifies column
    ensures IsColumn(column[..], s1, s2, x)
  {
    hide Distance;
    column[0] := x;
    var lastdiag := x - 1;
    ColumnTop(s1, s2, x);
    for y := 1 to |s1| + 1
      invariant forall k :: 0 <= k < y ==> column[k] == Distance(s1[..k], s2[..x])
      invariant forall k :: y <= k <= |s1| ==> column[k] == Distance(s1[..k], s2[..x - 1])
      invariant lastdiag == Distance(s1[..y - 1], s2[..x - 1])
    {
      var olddiag := column[y];
      Cell(s1, s2, x, y);
      column[y] := Min3(column[y] + 1, column[y - 1] + 1, lastdiag + (if s1[y - 1] == s2[x - 1] then 0 else 1));
      lastdiag := olddiag;
    }
  }

  lemma ColumnTop(s1: string, s2: string, x: nat)
    requires 1 <= x <= |s2|
    ensures Distance(s1[..0], s2[..x - 1]) == x - 1 && Distance(s1[..0], s2[..x]) == x
  {
  }

  lemma Cell(s1: string, s2: string, x: nat, y: nat)
    requires 1 <= x <= |s2| && 1 <= y <= |s1|
    ensures Distance(s1[..y], s2[..x])
      == Min3(Distance(s1[..y], s2[..x - 1]) + 1, Distance(s1[..y - 1], s2[..x]) + 1,
              Distance(s1[..y - 1], s2[..x - 1]) + Differs(s1[y - 1], s2[x - 1]))
  {
    assert s1[..y][..y - 1] == s1[..y - 1] && s2[..x][..x - 1] == s2[..x - 1];
  }

  // ---------------------------------------------------------------- a metric

  /** The entries never exceed the longer length, so unsigned arithmetic does not wrap around. */
  lemma {:induction false} DistanceBounded(s: string, t: string)
    ensures Distance(s, t) <= if |s| > |t| then |s| else |t|
    ensures Distance(s, t) >= if |s| > |t| then |s| - |t| else |t| - |s|
    decreases |s| + |t|
  {
    if s != "" && t != "" {
      var s', t' := s[..|s| - 1], t[..|t| - 1];
      DistanceBounded(s', t);
      DistanceBounded(s, t');
      DistanceBounded(s', t');
    }
  }

  lemma {:induction false} DistanceSymmetric(s: string, t: string)
    ensures Distance(s, t) == Distance(t, s)
    decreases |s| + |t|
  {
    if s != "" && t != "" {
      var s', t' := s[..|s| - 1], t[..|t| - 1];
      DistanceSymmetric(s', t);
      DistanceSymmetric(s, t');
      DistanceSymmetric(s', t');
    }
  }

  lemma {:induction false} DistanceZeroIffEqual(s: string, t: string)
    ensures Distance(s, t) == 0 <==> s == t
    decreases |s| + |t|
  {
    if s != "" && t != "" {
      var s', t' := s[..|s| - 1], t[..|t| - 1];
      DistanceZeroIffEqual(s', t');
      assert s == s' + [s[|s| - 1]] && t == t' + [t[|t| - 1]];
    }
  }

  /** One more character changes the distance by at most one. */
  lemma {:induction false} OneMore(s: string, t: string)
    requires t != ""
    ensures Distance(s, t) <= Distance(s, t[..|t| - 1]) + 1
    ensures Distance(t, s) <= Distance(t[..|t| - 1], s) + 1
  {
    if s == "" {
    }
  }

  /** The cases of the definition. */
  lemma DistanceLast(s: string, t: string)
    requires s != "" && t != ""
    ensures var s', t' := s[..|s| - 1], t[..|t| - 1]; var d := Differs(s[|s| - 1], t[|t| - 1]);
      && Distance(s, t) <= Distance(s', t) + 1 && Distance(s, t) <= Distance(s, t') + 1
      && Distance(s, t) <= Distance(s', t') + d
      && (Distance(s, t) == Distance(s', t) + 1 || Distance(s, t) == Distance(s, t') + 1
          || Distance(s, t) == Distance(s', t') + d)
  {
  }

  lemma EmptyDistance(s: string)
    ensures Distance("", s) == |s| && Distance(s, "") == |s|
  {
  }

  lemma {:induction false} DistanceTriangle(a: string, b: string, c: string)
    ensures Distance(a, c) <= Distance(a, b) + Distance(b, c)
    decreases |a| + |b| + |c|
  {
    hide Distance;
    EmptyDistance(a);
    EmptyDistance(b);
    EmptyDistance(c);
    if a == "" {
      DistanceBounded(b, c);
    } else if c == "" {
      DistanceBounded(a, b);
    } else if b == "" {
      DistanceBounded(a, c);
    } else {
      var a', b', c' := a[..|a| - 1], b[..|b| - 1], c[..|c| - 1];
      DistanceTriangle(a', b, c);
      DistanceTriangle(a, b, c');
      DistanceTriangle(a, b', c);
      DistanceTriangle(a, b', c');
      DistanceTriangle(a', b', c);
      DistanceTriangle(a', b', c');
      DistanceLast(a, b);
      DistanceLast(b, c);
      DistanceLast(a, c);
    }
  }

  // ---------------------------------------------------------------- the least number of edits

  function InsertAt(s: string, i: nat, c: char): string
    requires i <= |s|
  {
    s[..i] + [c] + s[i..]
  }

  ghost predicate Inserted(s: string, t: string) {
    exists i: nat, c :: i <= |s| && t == InsertAt(s, i, c)
  }

  function ChangeAt(s: string, i: nat, c: char): string
    requires i < |s|
  {
    s[i := c]
  }

  ghost predicate Changed(s: string, t: string) {
    exists i: nat, c :: i < |s| && t == ChangeAt(s, i, c)
  }

  /** One character inserted, deleted or changed. */
  ghost predicate OneEdit(s: string, t: string) {
    Inserted(s, t) || Inserted(t, s) || Changed(s, t)
  }

  ghost predicate EditedIn(s: string, t: string, n: nat)
    decreases n
  {
    if n == 0 then s == t else exists u :: OneEdit(s, u) && EditedIn(u, t, n - 1)
  }

  lemma {:induction false} CommonSuffix(s: string, t: string, w: string)
    ensures Distance(s + w, t + w) <= Distance(s, t)
    decreases |w|
  {
    if w == "" {
      assert s + w == s && t + w == t;
    } else {
      var n := |w| - 1;
      var a, b := s + w, t + w;
      assert a[..|a| - 1] == s + w[..n] && b[..|b| - 1] == t + w[..n];
      CommonSuffix(s, t, w[..n]);
    }
  }

  lemma InsertionCostsOne(s: string, t: string)
    requires Inserted(s, t)
    ensures Distance(s, t) <= 1
  {
    var i: nat, c :| i <= |s| && t == InsertAt(s, i, c);
    var p := s[..i];
    assert s == p + s[i..];
    CommonSuffix(p, p + [c], s[i..]);
    OneMore(p, p + [c]);
    assert (p + [c])[..|p|] == p;
    DistanceZeroIffEqual(p, p);
  }

  lemma ChangeCostsOne(s: string, t: string)
    requires Changed(s, t)
    ensures Distance(s, t) <= 1
  {
    var i: nat, c :| i < |s| && t == ChangeAt(s, i, c);
    var p, w := s[..i], s[i + 1..];
    var a, b := p + [s[i]], p + [c];
    assert s == a + w && t == b + w by { hide Distance; }
    CommonSuffix(a, b, w);
    assert Distance(a, b) <= 1 by {
      assert a[..i] == p && b[..i] == p;
      DistanceZeroIffEqual(p, p);
    }
  }

  lemma OneEditCostsOne(s: string, t: string)
    requires OneEdit(s, t)
    ensures Distance(s, t) <= 1
  {
    if Inserted(s, t) {
      InsertionCostsOne(s, t);
    } else if Inserted(t, s) {
      InsertionCostsOne(t, s);
      DistanceSymmetric(s, t);
    } else {
      ChangeCostsOne(s, t);
    }
  }

  /** No series of edits is shorter than the distance. */
  lemma {:induction false} NoShorterEdits(s: string, t: string, n: nat)
    requires EditedIn(s, t, n)
    ensures Distance(s, t) <= n
    decreases n
  {
    if n == 0 {
      DistanceZeroIffEqual(s, t);
    } else {
      var u :| OneEdit(s, u) && EditedIn(u, t, n - 1);
      OneEditCostsOne(s, u);
      NoShorterEdits(u, t, n - 1);
      DistanceTriangle(s, u, t);
    }
  }

  lemma OneEditBeforeSuffix(s: string, t: string, c: char)
    requires OneEdit(s, t)
    ensures OneEdit(s + [c], t + [c])
  {
    if Inserted(s, t) {
      InsertionBeforeSuffix(s, t, c);
    } else if Inserted(t, s) {
      InsertionBeforeSuffix(t, s, c);
    } else {
      var i: nat, d :| i < |s| && t == ChangeAt(s, i, d);
      assert t + [c] == ChangeAt(s + [c], i, d);
    }
  }

  lemma InsertionBeforeSuffix(s: string, t: string, c: char)
    requires Inserted(s, t)
    ensures Inserted(s + [c], t + [c])
  {
    var i: nat, d :| i <= |s| && t == InsertAt(s, i, d);
    assert t + [c] == InsertAt(s + [c], i, d);
  }

  lemma {:induction false} EditsBeforeSuffix(s: string, t: string, n: nat, c: char)
    requires EditedIn(s, t, n)
    ensures EditedIn(s + [c], t + [c], n)
    decreases n
  {
    if n > 0 {
      var u :| OneEdit(s, u) && EditedIn(u, t, n - 1);
      OneEditBeforeSuffix(s, u, c);
      EditsBeforeSuffix(u, t, n - 1, c);
    }
  }

  lemma {:induction false} OneEditAfter(s: string, u: string, t: string, n: nat)
    requires EditedIn(s, u, n) && OneEdit(u, t)
    ensures EditedIn(s, t, n + 1)
    decreases n
  {
    if n == 0 {
      assert EditedIn(t, t, 0);
    } else {
      var v :| OneEdit(s, v) && EditedIn(v, u, n - 1);
      OneEditAfter(v, u, t, n - 1);
    }
  }

  lemma AppendIsInsertion(s: string)
    requires s != ""
    ensures Inserted(s[..|s| - 1], s)
  {
    var p := s[..|s| - 1];
    assert s == InsertAt(p, |p|, s[|s| - 1]);
  }

  /** The distance is attained by a series of edits. */
  lemma {:induction false} DistanceAttained(s: string, t: string)
    ensures EditedIn(s, t, Distance(s, t))
    decreases |s| + |t|
  {
    if s == "" && t == "" {
    } else if s == "" {
      DistanceAttained(s, t[..|t| - 1]);
      AppendIsInsertion(t);
      OneEditAfter(s, t[..|t| - 1], t, |t| - 1);
    } else if t == "" || Distance(s, t) == Distance(s[..|s| - 1], t) + 1 {
      DistanceAttained(s[..|s| - 1], t);
      AppendIsInsertion(s);
      assert OneEdit(s, s[..|s| - 1]);
    } else if Distance(s, t) == Distance(s, t[..|t| - 1]) + 1 {
      DistanceAttained(s, t[..|t| - 1]);
      AppendIsInsertion(t);
      OneEditAfter(s, t[..|t| - 1], t, Distance(s, t) - 1);
    } else {
      ChangeLast(s, t);
    }
  }

  lemma {:induction false} ChangeLast(s: string, t: string)
    requires s != "" && t != ""
    requires Distance(s, t) == Distance(s[..|s| - 1], t[..|t| - 1]) + Differs(s[|s| - 1], t[|t| - 1])
    ensures EditedIn(s, t, Distance(s, t))
    decreases |s| + |t|, 0
  {
    hide Distance, EditedIn, Differs;
    DistanceAttained(s[..|s| - 1], t[..|t| - 1]);
    EditedLast(s[..|s| - 1], t[..|t| - 1], s[|s| - 1], t[|t| - 1], Distance(s[..|s| - 1], t[..|t| - 1]));
    assert s[..|s| - 1] + [s[|s| - 1]] == s && t[..|t| - 1] + [t[|t| - 1]] == t;
  }

  /** One more character on both sides costs a change at most. */
  lemma EditedLast(s: string, t: string, c: char, d: char, n: nat)
    requires EditedIn(s, t, n)
    ensures EditedIn(s + [c], t + [d], n + Differs(c, d))
  {
    hide EditedIn, Inserted, Changed;
    EditsBeforeSuffix(s, t, n, c);
    if c != d {
      LastChanged(t, c, d);
      OneEditAfter(s + [c], t + [c], t + [d], n);
    }
  }

  lemma LastChanged(t: string, c: char, d: char)
    ensures Changed(t + [c], t + [d])
  {
    assert t + [d] == ChangeAt(t + [c], |t|, d);
  }

  /** The distance is the least number of edits. */
  lemma DistanceIsLeast(s: string, t: string, n: nat)
    ensures EditedIn(s, t, Distance(s, t))
    ensures EditedIn(s, t, n) ==> Distance(s, t) <= n
  {
    DistanceAttained(s, t);
    if EditedIn(s, t, n) {
      NoShorterEdits(s, t, n);
    }
  }
}
