/** Kahn's algorithm as the session orchestrator runs it: once to reject cycles,
    once to sort. */
module TopologicalSort {
  import opened Wrappers
  import opened DependencyGraph

  /** An insertion-ordered map from vertices to counts. */
  datatype Counts = Counts(keys: seq<string>, at: map<string, nat>)

  ghost predicate CountsOk(c: Counts) {
    Distinct(c.keys) && forall v :: v in c.keys <==> v in c.at
  }

  function WithKey(c: Counts, v: string): Counts {
    if v in c.at then c else Counts(c.keys + [v], c.at[v := 0])
  }

  function ToSet(s: seq<string>): set<string> {
    set v | v in s
  }

  function Count(c: Counts, v: string): nat {
    if v in c.at then c.at[v] else 0
  }

  /** The edges into `v` among those of `order[..i]` and the first `j` of the next vertex. */
  ghost function CountUpTo(g: Graph, i: nat, j: nat, v: string): nat
    requires i <= |g.order| && j <= (if i < |g.order| then |Successors(g, g.order[i])| else 0)
  {
    Degree(EdgesOf(g), g.order[..i], {}, v)
    + (if j > 0 && v in Successors(g, g.order[i])[..j] then 1 else 0)
  }

  /** The vertices met on the way there. */
  ghost function MetUpTo(g: Graph, i: nat, j: nat): set<string>
    requires i <= |g.order| && j <= (if i < |g.order| then |Successors(g, g.order[i])| else 0)
  {
    (set k | 0 <= k < i :: g.order[k])
    + (set k, v | 0 <= k < i && v in Successors(g, g.order[k]) :: v)
    + (if j > 0 then ToSet(Successors(g, g.order[i])[..j]) else {})
  }

  lemma CountStep(g: Graph, i: nat, j: nat, v: string)
    requires WellFormed(g) && i < |g.order| && j < |Successors(g, g.order[i])|
    ensures CountUpTo(g, i, j + 1, v)
         == CountUpTo(g, i, j, v) + (if v == Successors(g, g.order[i])[j] then 1 else 0)
  {
    var succ := Successors(g, g.order[i]);
    assert succ[..j + 1] == succ[..j] + [succ[j]];
    assert succ[j] !in succ[..j];
  }

  lemma MetStep(g: Graph, i: nat, j: nat)
    requires WellFormed(g) && i < |g.order| && j < |Successors(g, g.order[i])|
    ensures MetUpTo(g, i, j + 1) == MetUpTo(g, i, j) + {Successors(g, g.order[i])[j]}
  {
    var succ := Successors(g, g.order[i]);
    assert succ[..j + 1] == succ[..j] + [succ[j]];
  }

  /** Having counted all its successors, the vertex is done. */
  lemma CountVertex(g: Graph, i: nat, v: string)
    requires WellFormed(g) && i < |g.order|
    ensures CountUpTo(g, i + 1, 0, v) == CountUpTo(g, i, |Successors(g, g.order[i])|, v)
  {
    var succ := Successors(g, g.order[i]);
    assert succ[..|succ|] == succ;
    assert g.order[..i + 1][..i] == g.order[..i];
    assert (g.order[i], v) in EdgesOf(g) <==> v in succ;
  }

  lemma MetVertex(g: Graph, i: nat)
    requires WellFormed(g) && i < |g.order|
    ensures MetUpTo(g, i + 1, 0) == MetUpTo(g, i, |Successors(g, g.order[i])|) + {g.order[i]}
  {
    var succ := Successors(g, g.order[i]);
    assert succ[..|succ|] == succ;
  }

  lemma MetAll(g: Graph)
    requires WellFormed(g)
    ensures MetUpTo(g, |g.order|, 0) == Vertices(g)
  {
    forall v | v in Vertices(g) ensures v in MetUpTo(g, |g.order|, 0) {
      if v in g.next {
        assert v in g.order;
      } else {
        var u :| u in g.next && v in g.next[u];
        assert u in g.order;
        var k :| 0 <= k < |g.order| && g.order[k] == u;
        assert v in Successors(g, g.order[k]);
      }
    }
  }

  function Bump(c: Counts, v: string): Counts {
    var c1 := WithKey(c, v);
    c1.(at := c1.at[v := c1.at[v] + 1])
  }

  /** `c` holds the counts up to there, with `extra` entered ahead of its count. */
  ghost predicate Tally(g: Graph, c: Counts, i: nat, j: nat, extra: set<string>)
    requires i <= |g.order| && j <= (if i < |g.order| then |Successors(g, g.order[i])| else 0)
  {
    && CountsOk(c) && c.at.Keys == MetUpTo(g, i, j) + extra
    && forall v :: Count(c, v) == CountUpTo(g, i, j, v)
  }

  lemma TallyKey(g: Graph, c: Counts, i: nat)
    requires WellFormed(g) && i < |g.order| && Tally(g, c, i, 0, {})
    ensures Tally(g, WithKey(c, g.order[i]), i, 0, {g.order[i]})
  {
    var c1 := WithKey(c, g.order[i]);
    forall v ensures Count(c1, v) == Count(c, v) {}
  }

  lemma BumpSpec(c: Counts, w: string)
    requires CountsOk(c)
    ensures CountsOk(Bump(c, w)) && Bump(c, w).at.Keys == c.at.Keys + {w}
    ensures forall v :: Count(Bump(c, w), v) == Count(c, v) + (if v == w then 1 else 0)
  {
  }

  lemma TallyStep(g: Graph, c: Counts, i: nat, j: nat)
    requires WellFormed(g) && i < |g.order| && j < |Successors(g, g.order[i])|
    requires Tally(g, c, i, j, {g.order[i]})
    ensures Tally(g, Bump(c, Successors(g, g.order[i])[j]), i, j + 1, {g.order[i]})
  {
    var w := Successors(g, g.order[i])[j];
    BumpSpec(c, w);
    MetStep(g, i, j);
    forall v ensures Count(Bump(c, w), v) == CountUpTo(g, i, j + 1, v) {
      CountStep(g, i, j, v);
    }
  }

  lemma TallyVertex(g: Graph, c: Counts, i: nat)
    requires WellFormed(g) && i < |g.order| && Tally(g, c, i, |Successors(g, g.order[i])|, {g.order[i]})
    ensures Tally(g, c, i + 1, 0, {})
  {
    MetVertex(g, i);
    forall v ensures Count(c, v) == CountUpTo(g, i + 1, 0, v) {
      CountVertex(g, i, v);
    }
  }

  lemma TallyAll(g: Graph, c: Counts)
    requires WellFormed(g) && Tally(g, c, |g.order|, 0, {})
    ensures c.at.Keys == Vertices(g)
    ensures forall v :: v in c.at ==> c.at[v] == Degree(EdgesOf(g), g.order, {}, v)
  {
    MetAll(g);
    assert g.order[..|g.order|] == g.order;
    forall v | v in c.at ensures c.at[v] == Degree(EdgesOf(g), g.order, {}, v) {
      assert Count(c, v) == CountUpTo(g, |g.order|, 0, v);
    }
  }

  /** Building the indegree map, in the order the source fills it. */
  method Indegrees(g: Graph) returns (c: Counts)
    requires WellFormed(g)
    ensures CountsOk(c) && c.at.Keys == Vertices(g)
    ensures forall v :: v in c.at ==> c.at[v] == Degree(EdgesOf(g), g.order, {}, v)
  {
    c := Counts([], map[]);
    for i := 0 to |g.order|
      invariant Tally(g, c, i, 0, {})
    {
      TallyKey(g, c, i);
      c := WithKey(c, g.order[i]);
      var succ := Successors(g, g.order[i]);
      for j := 0 to |succ|
        invariant Tally(g, c, i, j, {g.order[i]})
      {
        TallyStep(g, c, i, j);
        c := Bump(c, succ[j]);
      }
      TallyVertex(g, c, i);
    }
    TallyAll(g, c);
  }

  /** The vertices that nothing points at, in the order of the map. */
  method Ready(g: Graph, c: Counts) returns (queue: seq<string>)
    requires WellFormed(g) && CountsOk(c) && c.at.Keys == Vertices(g)
    requires forall v :: v in c.at ==> c.at[v] == Degree(EdgesOf(g), g.order, {}, v)
    ensures Kahn(g, c.at, queue, [])
  {
    queue := [];
    for k := 0 to |c.keys|
      invariant Distinct(queue)
      invariant forall v :: v in queue <==> v in c.keys[..k] && c.at[v] == 0
    {
      assert c.keys[..k + 1] == c.keys[..k] + [c.keys[k]];
      assert c.keys[k] !in c.keys[..k];
      if c.at[c.keys[k]] == 0 {
        queue := queue + [c.keys[k]];
      }
    }
    assert c.keys[..|c.keys|] == c.keys;
    assert ToSet([]) == {};
  }

  // ---------------------------------------------------------- taking a vertex

  /** Nothing unfinished points at `x`, so its successors are all unfinished, and
      `x` itself is not among them. */
  lemma TakenFromQueue(g: Graph, indegree: map<string, nat>, queue: seq<string>, sorted: seq<string>)
    requires WellFormed(g) && queue != [] && Kahn(g, indegree, queue, sorted)
    ensures var x := queue[0];
      && x in Vertices(g) && x !in sorted
      && (forall u :: (u, x) in EdgesOf(g) ==> u in sorted)
      && (forall v :: v in Successors(g, x) ==> v != x && v !in sorted && v in Vertices(g))
  {
    var x := queue[0];
    var e, done := EdgesOf(g), ToSet(sorted);
    assert x in queue;
    DegreeZero(e, g.order, done, x);
    forall u | (u, x) in e ensures u in sorted {
      assert u in g.order;
    }
    forall v | v in Successors(g, x) ensures v != x && v !in sorted && v in Vertices(g) {
      assert (x, v) in e;
    }
  }

  /** The degrees of all vertices once those in `done` are. */
  ghost function Degrees(g: Graph, done: set<string>): map<string, nat> {
    map v | v in Vertices(g) :: Degree(EdgesOf(g), g.order, done, v)
  }

  /** The state inside a release: `pending` are the edges still to be taken off. */
  ghost predicate Releasing(degrees: map<string, nat>, indegree: map<string, nat>, queue: seq<string>,
                            done: set<string>, pending: seq<string>)
  {
    && indegree.Keys == degrees.Keys && Distinct(queue)
    && (forall v :: v in indegree ==> indegree[v] == degrees[v] + (if v in pending then 1 else 0))
    && (forall v :: v in queue <==> v in indegree && v !in done && indegree[v] == 0)
  }

  /** Every degree is what it will be once `x` is done, and one more along its edges. */
  lemma OneMoreAlong(g: Graph, done: set<string>, x: string, v: string)
    requires WellFormed(g) && x !in done && v in Vertices(g)
    ensures Degree(EdgesOf(g), g.order, done, v)
         == Degrees(g, done + {x})[v] + (if v in Successors(g, x) then 1 else 0)
  {
    DegreeDrop(EdgesOf(g), g.order, done, x, v);
    assert x in g.order && (x, v) in EdgesOf(g) <==> v in Successors(g, x);
  }

  lemma ReleaseStart(g: Graph, indegree: map<string, nat>, queue: seq<string>, sorted: seq<string>)
    requires WellFormed(g) && queue != [] && Kahn(g, indegree, queue, sorted)
    ensures var done := ToSet(sorted) + {queue[0]};
      Releasing(Degrees(g, done), indegree, queue[1..], done, Successors(g, queue[0]))
  {
    TakenFromQueue(g, indegree, queue, sorted);
    var x := queue[0];
    var done := ToSet(sorted);
    forall v | v in indegree
      ensures indegree[v] == Degrees(g, done + {x})[v] + (if v in Successors(g, x) then 1 else 0)
    {
      OneMoreAlong(g, done, x, v);
    }
    QueueTail(queue, x);
  }

  lemma QueueTail(queue: seq<string>, x: string)
    requires queue != [] && queue[0] == x && Distinct(queue)
    ensures Distinct(queue[1..]) && forall v :: v in queue[1..] <==> v in queue && v != x
  {
    assert queue == [x] + queue[1..];
  }

  lemma ReleaseStep(degrees: map<string, nat>, indegree: map<string, nat>, queue: seq<string>, done: set<string>,
                    pending: seq<string>)
    requires pending != [] && Distinct(pending) && Releasing(degrees, indegree, queue, done, pending)
    requires pending[0] in degrees && pending[0] !in done
    ensures indegree[pending[0]] > 0
    ensures var n := indegree[pending[0]] - 1;
      Releasing(degrees, indegree[pending[0] := n], if n == 0 then queue + [pending[0]] else queue, done, pending[1..])
  {
    var w := pending[0];
    assert pending == [w] + pending[1..];
    assert w !in pending[1..];
    assert w !in queue;
  }

  lemma ReleaseEnd(g: Graph, indegree: map<string, nat>, queue: seq<string>, sorted: seq<string>, x: string)
    requires Releasing(Degrees(g, ToSet(sorted) + {x}), indegree, queue, ToSet(sorted) + {x}, [])
    requires Distinct(sorted) && ToSet(sorted) <= Vertices(g) && Ordered(EdgesOf(g), sorted)
    requires x in Vertices(g) && x !in sorted
    requires forall u :: (u, x) in EdgesOf(g) ==> u in sorted
    ensures Kahn(g, indegree, queue, sorted + [x])
  {
    assert ToSet(sorted + [x]) == ToSet(sorted) + {x};
    var s := sorted + [x];
    forall u, k | 0 <= k < |s| && (u, s[k]) in EdgesOf(g) ensures u in s[..k] {
      if k < |sorted| {
        assert s[..k] == sorted[..k];
      } else {
        assert s[..k] == sorted;
      }
    }
  }

  /** Taking the edges to `succ` off, one by one. */
  method TakeOff(indegree: map<string, nat>, queue: seq<string>, succ: seq<string>,
                 ghost degrees: map<string, nat>, ghost done: set<string>)
    returns (indegree': map<string, nat>, queue': seq<string>)
    requires Releasing(degrees, indegree, queue, done, succ) && Distinct(succ)
    requires forall v :: v in succ ==> v in degrees && v !in done
    ensures Releasing(degrees, indegree', queue', done, [])
    ensures queue <= queue' && forall v :: v in queue'[|queue|..] ==> v in succ
  {
    indegree', queue' := indegree, queue;
    for j := 0 to |succ|
      invariant Releasing(degrees, indegree', queue', done, succ[j..])
      invariant queue <= queue' && forall v :: v in queue'[|queue|..] ==> v in succ
    {
      ReleaseStep(degrees, indegree', queue', done, succ[j..]);
      assert succ[j..][1..] == succ[j + 1..];
      var newDeg := indegree'[succ[j]] - 1;
      indegree' := indegree'[succ[j] := newDeg];
      if newDeg == 0 {
        queue' := queue' + [succ[j]];
      }
    }
  }

  /** The loop body shared by both passes: the successors of the vertex taken lose
      one edge each, and join the queue when it was their last. */
  method Release(g: Graph, indegree: map<string, nat>, queue: seq<string>, ghost sorted: seq<string>)
    returns (indegree': map<string, nat>, queue': seq<string>)
    requires WellFormed(g) && queue != [] && Kahn(g, indegree, queue, sorted)
    ensures Kahn(g, indegree', queue', sorted + [queue[0]])
    ensures queue[1..] <= queue'
    ensures forall v :: v in queue'[|queue| - 1..] ==> v in Successors(g, queue[0])
  {
    var x := queue[0];
    ghost var done := ToSet(sorted) + {x};
    ReleaseStart(g, indegree, queue, sorted);
    TakenFromQueue(g, indegree, queue, sorted);
    indegree', queue' := TakeOff(indegree, queue[1..], Successors(g, x), Degrees(g, done), done);
    ReleaseEnd(g, indegree', queue', sorted, x);
  }

  lemma LeftToDo(g: Graph, indegree: map<string, nat>, queue: seq<string>, sorted: seq<string>)
    requires Kahn(g, indegree, queue, sorted)
    ensures |sorted| <= |Vertices(g)|
  {
    DistinctCount(sorted);
    assert |Vertices(g) - ToSet(sorted)| == |Vertices(g)| - |ToSet(sorted)|;
  }

  /** True exactly for the graphs without a cycle. */
  method IsAcyclic(g: Graph) returns (acyclic: bool)
    requires WellFormed(g)
    ensures acyclic <==> Acyclic(EdgesOf(g))
  {
    var c := Indegrees(g);
    var indegree := c.at;
    var queue := Ready(g, c);
    var visited := 0;
    ghost var sorted: seq<string> := [];
    while queue != []
      invariant Kahn(g, indegree, queue, sorted) && visited == |sorted|
      decreases |Vertices(g)| - |sorted|
    {
      ghost var x := queue[0];
      indegree, queue := Release(g, indegree, queue, sorted);
      visited := visited + 1;
      sorted := sorted + [x];
      LeftToDo(g, indegree, queue, sorted);
    }
    KahnDecides(g, indegree, sorted);
    acyclic := visited == |indegree|;
  }

  // ------------------------------------------------------------- the sort

  /** Each entity with the entities it depends on. */
  type Dependencies = seq<(string, seq<string>)>

  /** An edge from each dependency to its depender. */
  ghost function DependencyEdges(entries: Dependencies): Edges {
    set k, d | 0 <= k < |entries| && d in entries[k].1 :: (d, entries[k].0)
  }

  ghost function Mentioned(entries: Dependencies): set<string> {
    (set k | 0 <= k < |entries| :: entries[k].0) + (set k, d | 0 <= k < |entries| && d in entries[k].1 :: d)
  }

  function AddKey(g: Graph, v: string): Graph {
    if v in g.next then g else Graph(g.order + [v], g.next[v := []])
  }

  function AddEdge(g: Graph, u: string, v: string): Graph
    requires u in g.next
  {
    if v in g.next[u] then g else g.(next := g.next[u := g.next[u] + [v]])
  }

  lemma AddKeySpec(g: Graph, v: string)
    requires WellFormed(g)
    ensures var g1 := AddKey(g, v);
      WellFormed(g1) && EdgesOf(g1) == EdgesOf(g) && g1.next.Keys == g.next.Keys + {v}
  {
    var g1 := AddKey(g, v);
    assert EdgesOf(g1) == EdgesOf(g);
  }

  lemma AddEdgeSpec(g: Graph, u: string, v: string)
    requires WellFormed(g) && u in g.next
    ensures var g1 := AddEdge(g, u, v);
      WellFormed(g1) && EdgesOf(g1) == EdgesOf(g) + {(u, v)} && g1.next.Keys == g.next.Keys
  {
    var g1 := AddEdge(g, u, v);
    forall x | x in g1.next ensures Distinct(g1.next[x]) {}
    assert EdgesOf(g1) == EdgesOf(g) + {(u, v)};
  }

  lemma DependencyStep(entries: Dependencies, i: nat)
    requires i < |entries|
    ensures DependencyEdges(entries[..i + 1])
         == DependencyEdges(entries[..i]) + EdgesTo(entries[i].1, entries[i].0)
    ensures Mentioned(entries[..i + 1]) == Mentioned(entries[..i]) + {entries[i].0} + ToSet(entries[i].1)
  {
    var s := entries[..i + 1];
    assert s == entries[..i] + [entries[i]];
    assert forall k :: 0 <= k < i ==> s[k] == entries[..i][k];
    assert s[i] == entries[i];
  }

  ghost function EdgesTo(deps: seq<string>, entity: string): Edges {
    set d | d in deps :: (d, entity)
  }

  lemma EdgesToStep(deps: seq<string>, j: nat, entity: string)
    requires j < |deps|
    ensures EdgesTo(deps[..j + 1], entity) == EdgesTo(deps[..j], entity) + {(deps[j], entity)}
    ensures ToSet(deps[..j + 1]) == ToSet(deps[..j]) + {deps[j]}
  {
    assert deps[..j + 1] == deps[..j] + [deps[j]];
  }

  lemma AddDependencySpec(g: Graph, dep: string, entity: string)
    requires WellFormed(g)
    ensures dep in AddKey(g, dep).next
    ensures var g1 := AddEdge(AddKey(g, dep), dep, entity);
      WellFormed(g1) && EdgesOf(g1) == EdgesOf(g) + {(dep, entity)} && g1.next.Keys == g.next.Keys + {dep}
  {
    AddKeySpec(g, dep);
    AddEdgeSpec(AddKey(g, dep), dep, entity);
  }

  /** `g` is `g0` with these dependencies of `entity` added. */
  ghost predicate Extends(g0: Graph, g: Graph, entity: string, deps: seq<string>) {
    && WellFormed(g)
    && EdgesOf(g) == EdgesOf(g0) + EdgesTo(deps, entity)
    && g.next.Keys == g0.next.Keys + ToSet(deps)
  }

  lemma ExtendsStep(g0: Graph, g: Graph, entity: string, deps: seq<string>, j: nat)
    requires j < |deps| && Extends(g0, g, entity, deps[..j])
    ensures deps[j] in AddKey(g, deps[j]).next
    ensures Extends(g0, AddEdge(AddKey(g, deps[j]), deps[j], entity), entity, deps[..j + 1])
  {
    EdgesToStep(deps, j, entity);
    AddDependencySpec(g, deps[j], entity);
  }

  method AddDependencies(g0: Graph, entity: string, deps: seq<string>) returns (g: Graph)
    requires WellFormed(g0)
    ensures Extends(g0, g, entity, deps)
  {
    g := g0;
    for j := 0 to |deps|
      invariant Extends(g0, g, entity, deps[..j])
    {
      ExtendsStep(g0, g, entity, deps, j);
      g := AddKey(g, deps[j]);
      g := AddEdge(g, deps[j], entity);
    }
    assert deps[..|deps|] == deps;
  }

  method BuildGraph(entries: Dependencies) returns (g: Graph)
    ensures WellFormed(g)
    ensures EdgesOf(g) == DependencyEdges(entries) && g.next.Keys == Mentioned(entries)
  {
    g := Graph([], map[]);
    for i := 0 to |entries|
      invariant WellFormed(g)
      invariant EdgesOf(g) == DependencyEdges(entries[..i]) && g.next.Keys == Mentioned(entries[..i])
    {
      var (entity, deps) := entries[i];
      DependencyStep(entries, i);
      AddKeySpec(g, entity);
      g := AddKey(g, entity);
      g := AddDependencies(g, entity, deps);
    }
    assert entries[..|entries|] == entries;
  }

  /** What a release adds to the queue waits for the vertex released. */
  lemma FreeFirstNext(g: Graph, sorted: seq<string>, queue: seq<string>, queue': seq<string>)
    requires queue != [] && FreeFirst(EdgesOf(g), sorted + queue) && queue[1..] <= queue'
    requires forall v :: v in queue'[|queue| - 1..] ==> v in Successors(g, queue[0])
    ensures FreeFirst(EdgesOf(g), sorted + [queue[0]] + queue')
  {
    var more := queue'[|queue| - 1..];
    forall v | v in more ensures Waits(EdgesOf(g), v) {
      assert v in queue'[|queue| - 1..] && v in Successors(g, queue[0]);
      assert (queue[0], v) in EdgesOf(g);
    }
    FreeFirstAppend(EdgesOf(g), sorted + queue, more);
    assert queue' == queue[1..] + more;
    assert sorted + [queue[0]] + queue' == sorted + queue + more;
  }

  datatype SortError = CircularDependency(entities: seq<string>)

  /** Fails exactly on a cycle; otherwise every entity mentioned, once, each after
      everything it depends on. */
  method Sort(entries: Dependencies) returns (r: Result<seq<string>, SortError>)
    ensures r.Ok? <==> Acyclic(DependencyEdges(entries))
    ensures r.Err? ==> Distinct(r.error.entities) && ToSet(r.error.entities) == Mentioned(entries)
    ensures r.Ok? ==> Distinct(r.value) && ToSet(r.value) == Mentioned(entries)
    ensures r.Ok? ==> Ordered(DependencyEdges(entries), r.value)
    ensures r.Ok? ==> FreeFirst(DependencyEdges(entries), r.value)
  {
    var g := BuildGraph(entries);
    assert Vertices(g) == g.next.Keys by {
      forall u, v | u in g.next && v in g.next[u] ensures v in g.next {
        assert (u, v) in EdgesOf(g);
      }
    }
    var acyclic := IsAcyclic(g);
    if !acyclic {
      return Err(CircularDependency(g.order));
    }
    var c := Indegrees(g);
    var indegree := c.at;
    var queue := Ready(g, c);
    var sorted: seq<string> := [];
    FirstQueueIsFree(g, indegree, queue);
    assert sorted + queue == queue;
    while queue != []
      invariant Kahn(g, indegree, queue, sorted)
      invariant FreeFirst(EdgesOf(g), sorted + queue)
      decreases |Vertices(g)| - |sorted|
    {
      var vertex := queue[0];
      ghost var before := queue;
      indegree, queue := Release(g, indegree, queue, sorted);
      FreeFirstNext(g, sorted, before, queue);
      sorted := sorted + [vertex];
      LeftToDo(g, indegree, queue, sorted);
    }
    assert sorted + [] == sorted;
    KahnDecides(g, indegree, sorted);
    CountsAgree(g.order, g.next.Keys);
    if |sorted| != |g.order| {
      // The source throws here; the acyclicity check has ruled it out.
      assert false;
    }
    r := Ok(sorted);
  }
}
