/** Directed graphs as insertion-ordered maps of insertion-ordered sets, cycles,
    and the argument behind Kahn's algorithm: a queue that runs dry early means
    that what is left contains a cycle. */
module DependencyGraph {
  type Edges = set<(string, string)>

  /** `order` lists the keys as they were inserted, `next[v]` the edges out of `v`. */
  datatype Graph = Graph(order: seq<string>, next: map<string, seq<string>>)

  ghost predicate Distinct<T>(s: seq<T>) {
    forall i, j :: 0 <= i < j < |s| ==> s[i] != s[j]
  }

  /** What the runtime's maps and sets guarantee. */
  ghost predicate WellFormed(g: Graph) {
    && Distinct(g.order)
    && (forall v :: v in g.order <==> v in g.next)
    && (forall v :: v in g.next ==> Distinct(g.next[v]))
  }

  function Successors(g: Graph, v: string): seq<string> {
    if v in g.next then g.next[v] else []
  }

  ghost function EdgesOf(g: Graph): Edges {
    set u, v | u in g.next && v in g.next[u] :: (u, v)
  }

  ghost function Vertices(g: Graph): set<string> {
    g.next.Keys + set u, v | u in g.next && v in g.next[u] :: v
  }

  ghost predicate IsPath(e: Edges, p: seq<string>) {
    forall i :: 0 <= i < |p| - 1 ==> (p[i], p[i + 1]) in e
  }

  ghost predicate IsCycle(e: Edges, p: seq<string>) {
    |p| >= 2 && p[0] == p[|p| - 1] && IsPath(e, p)
  }

  ghost predicate Acyclic(e: Edges) {
    forall p :: !IsCycle(e, p)
  }

  /** Everything that has an edge into a member of `s` stands before it in `s`. */
  ghost predicate Ordered(e: Edges, s: seq<string>) {
    forall u, k :: 0 <= k < |s| && (u, s[k]) in e ==> u in s[..k]
  }

  /** Something has an edge into `v`. */
  ghost predicate Waits(e: Edges, v: string) {
    exists u :: (u, v) in e
  }

  /** What waits for nothing stands ahead of all that waits. */
  ghost predicate FreeFirst(e: Edges, s: seq<string>) {
    forall i, j :: 0 <= i < j < |s| && Waits(e, s[i]) ==> Waits(e, s[j])
  }

  lemma FreeFirstAppend(e: Edges, s: seq<string>, more: seq<string>)
    requires FreeFirst(e, s) && forall v :: v in more ==> Waits(e, v)
    ensures FreeFirst(e, s + more)
  {
  }

  // ----------------------------------------------------- order rules out cycles

  lemma {:induction false} PathGoesForward(e: Edges, s: seq<string>, p: seq<string>, i: nat)
    requires Ordered(e, s) && Distinct(s) && IsPath(e, p) && i < |p|
    requires p[|p| - 1] in s
    ensures p[i] in s
    ensures i < |p| - 1 ==> exists a, b :: 0 <= a < b < |s| && s[a] == p[i] && s[b] == p[|p| - 1]
    decreases |p| - i
  {
    if i < |p| - 1 {
      PathGoesForward(e, s, p, i + 1);
      var b :| 0 <= b < |s| && s[b] == p[i + 1];
      assert (p[i], s[b]) in e;
      var a :| 0 <= a < b && s[a] == p[i];
      if i + 1 < |p| - 1 {
        var b', c :| 0 <= b' < c < |s| && s[b'] == p[i + 1] && s[c] == p[|p| - 1];
        assert b == b';
      }
    }
  }

  /** A graph all of whose edges end in an ordered list has no cycle. */
  lemma OrderedIsAcyclic(e: Edges, s: seq<string>)
    requires Ordered(e, s) && Distinct(s) && forall u, v :: (u, v) in e ==> v in s
    ensures Acyclic(e)
  {
    forall p ensures !IsCycle(e, p) {
      if IsCycle(e, p) {
        assert (p[|p| - 2], p[|p| - 1]) in e;
        PathGoesForward(e, s, p, 0);
      }
    }
  }

  // -------------------------------------------- a stuck remainder holds a cycle

  lemma {:induction false} Pigeonhole(p: seq<string>, r: set<string>)
    requires |p| > |r| && forall x :: x in p ==> x in r
    ensures exists i, j :: 0 <= i < j < |p| && p[i] == p[j]
    decreases |p|
  {
    var n := |p| - 1;
    assert p[n] in p;
    if i :| 0 <= i < n && p[i] == p[n] {
    } else {
      assert |r - {p[n]}| == |r| - 1;
      forall x | x in p[..n] ensures x in r - {p[n]} {
        assert x in p;
      }
      Pigeonhole(p[..n], r - {p[n]});
      var i, j :| 0 <= i < j < n && p[..n][i] == p[..n][j];
      assert p[i] == p[j];
    }
  }

  ghost predicate HasPredecessor(e: Edges, r: set<string>, v: string) {
    exists u :: u in r && (u, v) in e
  }

  /** Every member of `r` waits for another one. */
  ghost predicate Stuck(e: Edges, r: set<string>) {
    forall v {:trigger HasPredecessor(e, r, v)} :: v in r ==> HasPredecessor(e, r, v)
  }

  /** Walking edges backwards inside `r` can go on for ever. */
  lemma {:induction false} WalkBack(e: Edges, r: set<string>, n: nat) returns (p: seq<string>)
    requires r != {} && Stuck(e, r)
    ensures |p| == n + 1 && IsPath(e, p) && forall x :: x in p ==> x in r
  {
    if n == 0 {
      var v :| v in r;
      p := [v];
    } else {
      var q := WalkBack(e, r, n - 1);
      assert q[0] in q;
      assert HasPredecessor(e, r, q[0]);
      var u :| u in r && (u, q[0]) in e;
      p := [u] + q;
    }
  }

  lemma StuckHasCycle(e: Edges, r: set<string>)
    requires r != {} && Stuck(e, r)
    ensures !Acyclic(e)
  {
    var p := WalkBack(e, r, |r|);
    Pigeonhole(p, r);
    var i, j :| 0 <= i < j < |p| && p[i] == p[j];
    var c := p[i..j + 1];
    assert IsCycle(e, c);
  }

  // -------------------------------------------------------- counting edges in

  /** The members of `order` outside `done` with an edge to `v`. */
  ghost function Degree(e: Edges, order: seq<string>, done: set<string>, v: string): nat {
    if order == [] then 0
    else
      var u := order[|order| - 1];
      Degree(e, order[..|order| - 1], done, v) + (if u !in done && (u, v) in e then 1 else 0)
  }

  lemma {:induction false} DegreeZero(e: Edges, order: seq<string>, done: set<string>, v: string)
    ensures Degree(e, order, done, v) == 0 <==> forall u :: u in order && (u, v) in e ==> u in done
  {
    if order != [] {
      var n := |order| - 1;
      DegreeZero(e, order[..n], done, v);
      assert order == order[..n] + [order[n]];
    }
  }

  /** Finishing `x` takes one off each of its successors. */
  lemma {:induction false} DegreeDrop(e: Edges, order: seq<string>, done: set<string>, x: string, v: string)
    requires Distinct(order) && x !in done
    ensures Degree(e, order, done, v)
         == Degree(e, order, done + {x}, v) + (if x in order && (x, v) in e then 1 else 0)
  {
    if order != [] {
      var n := |order| - 1;
      DegreeDrop(e, order[..n], done, x, v);
      assert order == order[..n] + [order[n]];
    }
  }

  // ------------------------------------------------------------ Kahn's queue

  /** The state of the loop between two vertices: `sorted` has been dealt with, the
      queue holds exactly the other vertices that nothing unfinished points at. */
  ghost predicate Kahn(g: Graph, indegree: map<string, nat>, queue: seq<string>, sorted: seq<string>) {
    var e := EdgesOf(g);
    var done := set v | v in sorted;
    && indegree.Keys == Vertices(g)
    && (forall v :: v in indegree ==> indegree[v] == Degree(e, g.order, done, v))
    && Distinct(queue) && Distinct(sorted)
    && done <= Vertices(g)
    && (forall v :: v in queue <==> v in indegree && v !in done && indegree[v] == 0)
    && Ordered(e, sorted)
  }

  /** The first queue holds only vertices that wait for nothing. */
  lemma FirstQueueIsFree(g: Graph, indegree: map<string, nat>, queue: seq<string>)
    requires WellFormed(g) && Kahn(g, indegree, queue, [])
    ensures FreeFirst(EdgesOf(g), queue)
  {
    var nothing: seq<string> := [];
    assert (set u | u in nothing) == {};
    forall v | v in queue ensures !Waits(EdgesOf(g), v) {
      DegreeZero(EdgesOf(g), g.order, {}, v);
      forall u ensures (u, v) !in EdgesOf(g) {
        assert (u, v) in EdgesOf(g) ==> u in g.order;
      }
    }
  }

  lemma LeftoverIsStuck(g: Graph, indegree: map<string, nat>, sorted: seq<string>)
    requires WellFormed(g) && Kahn(g, indegree, [], sorted)
    ensures Stuck(EdgesOf(g), Vertices(g) - set v | v in sorted)
  {
    var e := EdgesOf(g);
    var done := set v | v in sorted;
    var rest := Vertices(g) - done;
    forall v | v in rest ensures HasPredecessor(e, rest, v) {
      DegreeZero(e, g.order, done, v);
      var u :| u in g.order && (u, v) in e && u !in done;
      assert u in rest;
    }
  }

  lemma CountsAgree(s: seq<string>, all: set<string>)
    requires Distinct(s) && (set v | v in s) <= all
    ensures |s| == |all| <==> all - (set v | v in s) == {}
    ensures |s| == |all| <==> all == (set v | v in s)
  {
    var done := set v | v in s;
    DistinctCount(s);
    assert |all - done| == |all| - |done|;
  }

  lemma AllSortedIsAcyclic(g: Graph, sorted: seq<string>)
    requires Ordered(EdgesOf(g), sorted) && Distinct(sorted) && Vertices(g) == set v | v in sorted
    ensures Acyclic(EdgesOf(g))
  {
    forall u, v | (u, v) in EdgesOf(g) ensures v in sorted {
      assert v in Vertices(g);
    }
    OrderedIsAcyclic(EdgesOf(g), sorted);
  }

  /** Both checks at the end of the loop come down to this. */
  lemma KahnDecides(g: Graph, indegree: map<string, nat>, sorted: seq<string>)
    requires WellFormed(g) && Kahn(g, indegree, [], sorted)
    ensures |sorted| == |indegree| <==> Acyclic(EdgesOf(g))
    ensures |sorted| == |indegree| ==> Vertices(g) == set v | v in sorted
  {
    CountsAgree(sorted, Vertices(g));
    assert |indegree| == |indegree.Keys| == |Vertices(g)|;
    LeftoverIsStuck(g, indegree, sorted);
    if |sorted| == |indegree| {
      AllSortedIsAcyclic(g, sorted);
    } else {
      StuckHasCycle(EdgesOf(g), Vertices(g) - set v | v in sorted);
    }
  }

  lemma {:induction false} DistinctCount(s: seq<string>)
    requires Distinct(s)
    ensures |set v | v in s| == |s|
  {
    if s != [] {
      var n := |s| - 1;
      DistinctCount(s[..n]);
      assert s == s[..n] + [s[n]];
      assert (set v | v in s) == (set v | v in s[..n]) + {s[n]};
    }
  }
}
