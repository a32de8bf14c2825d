/** The edit distance behind the column matcher: a table that takes the diagonal
    without a minimum when two characters agree, shown to be the least number of
    single-character edits all the same. */
module Levenshtein {

  function Min(a: nat, b: nat): nat {
    if a <= b then a else b
  }

  function Init(s: string): string
    requires s != []
  {
    s[..|s| - 1]
  }

  function LastChar(s: string): char
    requires s != []
  {
    s[|s| - 1]
  }

  /** The table entry for the prefixes `s` and `t`, by the source's recurrence. */
  function Table(s: string, t: string): nat
    decreases |s| + |t|
  {
    if s == [] then |t|
    else if t == [] then |s|
    else if LastChar(s) == LastChar(t) then Table(Init(s), Init(t))
    else 1 + Min(Min(Table(Init(s), t), Table(s, Init(t))), Table(Init(s), Init(t)))
  }

  // -------------------------------------------------- what an edit script is

  function Inserted(s: string, p: nat, c: char): string
    requires p <= |s|
  {
    s[..p] + [c] + s[p..]
  }

  function Deleted(s: string, p: nat): string
    requires p < |s|
  {
    s[..p] + s[p + 1..]
  }

  function Substituted(s: string, p: nat, c: char): string
    requires p < |s|
  {
    s[p := c]
  }

  /** One insertion, deletion or substitution. */
  ghost predicate OneEdit(s: string, t: string) {
    || (exists p: nat, c :: p <= |s| && t == Inserted(s, p, c))
    || (exists p: nat :: p < |s| && t == Deleted(s, p))
    || (exists p: nat, c :: p < |s| && t == Substituted(s, p, c))
  }

  /** `k` edits, one after the other, turn `s` into `t`. */
  ghost predicate Edits(s: string, t: string, k: nat)
    decreases k
  {
    if k == 0 then s == t else exists u :: OneEdit(s, u) && Edits(u, t, k - 1)
  }

  // ------------------------------------------------- neighbours in the table

  lemma {:induction false} TableSymmetric(s: string, t: string)
    ensures Table(s, t) == Table(t, s)
    decreases |s| + |t|
  {
    if s != [] && t != [] {
      TableSymmetric(Init(s), t);
      TableSymmetric(s, Init(t));
      TableSymmetric(Init(s), Init(t));
    }
  }

  /** Dropping or adding a last character changes the distance by at most one. */
  lemma {:induction false} OneCharApart(x: string, c: char, t: string)
    ensures Table(x + [c], t) <= Table(x, t) + 1
    ensures Table(x, t) <= Table(x + [c], t) + 1
    decreases |x| + |t|
  {
    assert Init(x + [c]) == x;
    if t != [] {
      // Both bounds for the second argument, by symmetry.
      var t', d := Init(t), LastChar(t);
      OneCharApart(t', d, x);
      assert t' + [d] == t;
      TableSymmetric(t, x);
      TableSymmetric(t', x);
      OneCharApart(x, c, t');
    }
  }

  lemma {:induction false} OneCharOther(x: string, c: char, d: char, t: string)
    ensures Table(x + [c], t) <= Table(x + [d], t) + 1
    decreases |t|
  {
    assert Init(x + [c]) == x && Init(x + [d]) == x;
    if t != [] {
      var t', e := Init(t), LastChar(t);
      OneCharApart(t', e, x);
      assert t' + [e] == t;
      TableSymmetric(t, x);
      TableSymmetric(t', x);
      OneCharApart(x, d, t');
      OneCharOther(x, c, d, t');
    }
  }

  ghost predicate Near(x: string, y: string) {
    forall t :: Table(x, t) <= Table(y, t) + 1
  }

  /** A common last character keeps two strings near each other. */
  lemma {:induction false} NearAppendAt(x: string, y: string, c: char, t: string)
    requires Near(x, y)
    ensures Table(x + [c], t) <= Table(y + [c], t) + 1
    decreases |t|
  {
    assert Init(x + [c]) == x && Init(y + [c]) == y;
    if t == [] {
      assert Table(x, []) <= Table(y, []) + 1;
    } else {
      assert Table(x, Init(t)) <= Table(y, Init(t)) + 1;
      assert Table(x, t) <= Table(y, t) + 1;
      NearAppendAt(x, y, c, Init(t));
    }
  }

  lemma {:induction false} NearAppend(x: string, y: string, z: string)
    requires Near(x, y)
    ensures Near(x + z, y + z)
    decreases z
  {
    if z == [] {
      assert x + z == x && y + z == y;
    } else {
      forall t ensures Table(x + [z[0]], t) <= Table(y + [z[0]], t) + 1 {
        NearAppendAt(x, y, z[0], t);
      }
      NearAppend(x + [z[0]], y + [z[0]], z[1..]);
      assert x + z == x + [z[0]] + z[1..] && y + z == y + [z[0]] + z[1..];
    }
  }

  /** One edit brings the target closer by at most one. */
  lemma OneEditNear(s: string, u: string)
    requires OneEdit(s, u)
    ensures Near(s, u)
  {
    if p: nat, c :| p <= |s| && u == Inserted(s, p, c) {
      forall t ensures Table(s[..p], t) <= Table(s[..p] + [c], t) + 1 { OneCharApart(s[..p], c, t); }
      NearAppend(s[..p], s[..p] + [c], s[p..]);
      assert s == s[..p] + s[p..];
    } else if p: nat :| p < |s| && u == Deleted(s, p) {
      forall t ensures Table(s[..p] + [s[p]], t) <= Table(s[..p], t) + 1 { OneCharApart(s[..p], s[p], t); }
      NearAppend(s[..p] + [s[p]], s[..p], s[p + 1..]);
      assert s == s[..p] + [s[p]] + s[p + 1..];
    } else {
      var p: nat, c :| p < |s| && u == Substituted(s, p, c);
      forall t ensures Table(s[..p] + [s[p]], t) <= Table(s[..p] + [c], t) + 1 { OneCharOther(s[..p], s[p], c, t); }
      NearAppend(s[..p] + [s[p]], s[..p] + [c], s[p + 1..]);
      assert s == s[..p] + [s[p]] + s[p + 1..];
      assert u == s[..p] + [c] + s[p + 1..];
    }
  }

  lemma {:induction false} TableSelf(s: string)
    ensures Table(s, s) == 0
  {
    if s != [] { TableSelf(Init(s)); }
  }

  /** No script is shorter than the table says. */
  lemma {:induction false} TableIsLowerBound(s: string, t: string, k: nat)
    requires Edits(s, t, k)
    ensures Table(s, t) <= k
    decreases k
  {
    if k == 0 {
      TableSelf(s);
    } else {
      var u :| OneEdit(s, u) && Edits(u, t, k - 1);
      TableIsLowerBound(u, t, k - 1);
      OneEditNear(s, u);
      assert Table(s, t) <= Table(u, t) + 1;
    }
  }

  // ----------------------------------------------- a script of that length

  lemma OneEditAppend(s: string, t: string, c: char)
    requires OneEdit(s, t)
    ensures OneEdit(s + [c], t + [c])
  {
    if p: nat, d :| p <= |s| && t == Inserted(s, p, d) {
      assert t + [c] == Inserted(s + [c], p, d);
    } else if p: nat :| p < |s| && t == Deleted(s, p) {
      assert t + [c] == Deleted(s + [c], p);
    } else {
      var p: nat, d :| p < |s| && t == Substituted(s, p, d);
      assert t + [c] == Substituted(s + [c], p, d);
    }
  }

  lemma {:induction false} EditsAppend(s: string, t: string, k: nat, c: char)
    requires Edits(s, t, k)
    ensures Edits(s + [c], t + [c], k)
    decreases k
  {
    if k > 0 {
      var u :| OneEdit(s, u) && Edits(u, t, k - 1);
      OneEditAppend(s, u, c);
      EditsAppend(u, t, k - 1, c);
    }
  }

  lemma EditsFrom(s: string, u: string, t: string, k: nat)
    requires OneEdit(s, u) && Edits(u, t, k)
    ensures Edits(s, t, k + 1)
  {
  }

  /** The three moves of the table, as first edits. */
  lemma DropLast(s: string, c: char)
    ensures OneEdit(s + [c], s)
  {
    assert s == Deleted(s + [c], |s|);
  }

  lemma AddLast(s: string, c: char)
    ensures OneEdit(s, s + [c])
  {
    assert s + [c] == Inserted(s, |s|, c);
  }

  lemma ChangeLast(s: string, c: char, d: char)
    ensures OneEdit(s + [c], s + [d])
  {
    assert s + [d] == Substituted(s + [c], |s|, d);
  }

  lemma DeleteLast(s: string, t: string, k: nat)
    requires s != [] && Edits(Init(s), t, k)
    ensures Edits(s, t, k + 1)
  {
    DropLast(Init(s), LastChar(s));
    assert s == Init(s) + [LastChar(s)];
    EditsFrom(s, Init(s), t, k);
  }

  lemma InsertLast(s: string, t: string, k: nat)
    requires t != [] && Edits(s, Init(t), k)
    ensures Edits(s, t, k + 1)
  {
    AddLast(s, LastChar(t));
    assert t == Init(t) + [LastChar(t)];
    EditsAppend(s, Init(t), k, LastChar(t));
    EditsFrom(s, s + [LastChar(t)], t, k);
  }

  lemma MatchLast(s: string, t: string, k: nat)
    requires s != [] && t != [] && Edits(Init(s), Init(t), k)
    ensures LastChar(s) == LastChar(t) ==> Edits(s, t, k)
    ensures Edits(s, t, k + 1)
  {
    EditsAppend(Init(s), Init(t), k, LastChar(t));
    assert s == Init(s) + [LastChar(s)] && t == Init(t) + [LastChar(t)];
    ChangeLast(Init(s), LastChar(s), LastChar(t));
    EditsFrom(s, Init(s) + [LastChar(t)], t, k);
  }

  /** The minimum in the table is one of the three scripts. */
  lemma ReachedByLast(s: string, t: string, x: nat, y: nat, z: nat)
    requires s != [] && t != []
    requires Edits(Init(s), t, x) && Edits(s, Init(t), y) && Edits(Init(s), Init(t), z)
    ensures LastChar(s) == LastChar(t) ==> Edits(s, t, z)
    ensures Edits(s, t, 1 + Min(Min(x, y), z))
  {
    DeleteLast(s, t, x);
    InsertLast(s, t, y);
    MatchLast(s, t, z);
  }

  /** Some script is as short as the table says. */
  lemma {:induction false} TableIsReached(s: string, t: string)
    ensures Edits(s, t, Table(s, t))
    decreases |s| + |t|
  {
    if s == [] && t == [] {
    } else if t == [] {
      TableIsReached(Init(s), t);
      DeleteLast(s, t, Table(Init(s), t));
    } else if s == [] {
      TableIsReached(s, Init(t));
      InsertLast(s, t, Table(s, Init(t)));
    } else {
      TableIsReached(Init(s), t);
      TableIsReached(s, Init(t));
      TableIsReached(Init(s), Init(t));
      ReachedByLast(s, t, Table(Init(s), t), Table(s, Init(t)), Table(Init(s), Init(t)));
    }
  }

  /** The table entry is the least number of edits. */
  lemma TableIsLeast(s: string, t: string)
    ensures Edits(s, t, Table(s, t))
    ensures forall k: nat :: Edits(s, t, k) ==> Table(s, t) <= k
  {
    TableIsReached(s, t);
    forall k: nat | Edits(s, t, k) ensures Table(s, t) <= k {
      TableIsLowerBound(s, t, k);
    }
  }

  lemma {:induction false} EditsConcat(s: string, t: string, u: string, k: nat, l: nat)
    requires Edits(s, t, k) && Edits(t, u, l)
    ensures Edits(s, u, k + l)
    decreases k
  {
    if k > 0 {
      var v :| OneEdit(s, v) && Edits(v, t, k - 1);
      EditsConcat(v, t, u, k - 1, l);
      EditsFrom(s, v, u, k - 1 + l);
    }
  }

  /** It is a metric. */
  lemma TableIsMetric(s: string, t: string, u: string)
    ensures Table(s, t) == 0 <==> s == t
    ensures Table(s, t) == Table(t, s)
    ensures Table(s, u) <= Table(s, t) + Table(t, u)
  {
    TableIsReached(s, t);
    TableIsReached(t, u);
    TableSelf(s);
    TableSymmetric(s, t);
    EditsConcat(s, t, u, Table(s, t), Table(t, u));
    TableIsLowerBound(s, u, Table(s, t) + Table(t, u));
  }

  // ----------------------------------------------------------- the algorithm

  lemma TableCell(a: string, b: string, i: nat, j: nat)
    requires 0 < i <= |a| && 0 < j <= |b|
    ensures Table(a[..i], b[..j]) ==
      if a[i - 1] == b[j - 1] then Table(a[..i - 1], b[..j - 1])
      else 1 + Min(Min(Table(a[..i - 1], b[..j]), Table(a[..i], b[..j - 1])), Table(a[..i - 1], b[..j - 1]))
  {
    assert Init(a[..i]) == a[..i - 1] && Init(b[..j]) == b[..j - 1];
  }

  /** The entry for the first `i` and the first `j` characters. */
  ghost function Entry(a: string, b: string, i: nat, j: nat): nat
    requires i <= |a| && j <= |b|
  {
    Table(a[..i], b[..j])
  }

  ghost predicate RowFilled(dp: array2<nat>, a: string, b: string, i: nat)
    requires dp.Length0 == |a| + 1 && dp.Length1 == |b| + 1 && i <= |a|
    reads dp
  {
    forall y :: 0 <= y <= |b| ==> dp[i, y] == Entry(a, b, i, y)
  }

  /** One row of the table, from the row above it. */
  method FillRow(dp: array2<nat>, a: string, b: string, i: nat)
    requires dp.Length0 == |a| + 1 && dp.Length1 == |b| + 1 && 0 < i <= |a|
    requires dp[i, 0] == i
    requires RowFilled(dp, a, b, i - 1)
    modifies dp
    ensures forall x, y :: 0 <= x <= |a| && 0 <= y <= |b| && x != i ==> dp[x, y] == old(dp[x, y])
    ensures RowFilled(dp, a, b, i)
  {
    for j := 1 to |b| + 1
      invariant forall x, y :: 0 <= x <= |a| && 0 <= y <= |b| && x != i ==> dp[x, y] == old(dp[x, y])
      invariant forall y :: 0 <= y < j ==> dp[i, y] == Entry(a, b, i, y)
    {
      TableCell(a, b, i, j);
      dp[i, j] :=
        if a[i - 1] == b[j - 1] then dp[i - 1, j - 1]
        else 1 + Min(Min(dp[i - 1, j], dp[i, j - 1]), dp[i - 1, j - 1]);
    }
  }

  /** The borders of the table: distances to the empty string. */
  method FillBorders(dp: array2<nat>)
    requires dp.Length0 > 0 && dp.Length1 > 0
    modifies dp
    ensures forall x :: 0 <= x < dp.Length0 ==> dp[x, 0] == x
    ensures forall y :: 0 <= y < dp.Length1 ==> dp[0, y] == y
  {
    for i := 0 to dp.Length0
      invariant forall x :: 0 <= x < i ==> dp[x, 0] == x
    {
      dp[i, 0] := i;
    }
    for j := 0 to dp.Length1
      invariant forall x :: 0 <= x < dp.Length0 ==> dp[x, 0] == x
      invariant forall y :: 0 <= y < j ==> dp[0, y] == y
    {
      dp[0, j] := j;
    }
  }

  method Distance(a: string, b: string) returns (d: nat)
    ensures d == Table(a, b)
  {
    var m, n := |a|, |b|;
    if m == 0 { return n; }
    if n == 0 { return m; }
    var dp := new nat[m + 1, n + 1]((i, j) => 0);
    FillBorders(dp);
    for i := 1 to m + 1
      invariant forall x :: 0 <= x <= m ==> dp[x, 0] == x
      invariant RowFilled(dp, a, b, i - 1)
    {
      FillRow(dp, a, b, i);
      assert dp[i, 0] == Entry(a, b, i, 0) == i;
    }
    assert a[..m] == a && b[..n] == b;
    d := dp[m, n];
    assert d == Entry(a, b, m, n);
  }
}
