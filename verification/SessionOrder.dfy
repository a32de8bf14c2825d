/** From the order of the entities to the order of a session's import jobs. */
module SessionOrder {
  import opened Wrappers
  import opened DependencyGraph
  import opened TopologicalSort

  datatype Job = Job(id: string, entityKey: string)

  ghost predicate DistinctIds(jobs: seq<Job>) {
    forall i, j :: 0 <= i < j < |jobs| ==> jobs[i].id != jobs[j].id
  }

  function EntitySet(jobs: seq<Job>): set<string> {
    set j | j in jobs :: j.entityKey
  }

  ghost predicate DependsOn(deps: map<string, seq<string>>, entity: string, on: string) {
    entity in deps && on in deps[entity]
  }

  /** The dependencies that count in this session: both ends are present. */
  ghost function SessionEdges(jobs: seq<Job>, deps: map<string, seq<string>>): Edges {
    set e, d | e in EntitySet(jobs) && d in EntitySet(jobs) && DependsOn(deps, e, d) :: (d, e)
  }

  function JobsOf(jobs: seq<Job>, entity: string): seq<Job> {
    if jobs == [] then []
    else
      var rest := JobsOf(jobs[..|jobs| - 1], entity);
      if jobs[|jobs| - 1].entityKey == entity then rest + [jobs[|jobs| - 1]] else rest
  }

  /** Entity by entity, the jobs of each in their input order. */
  function Grouped(entities: seq<string>, jobs: seq<Job>): seq<Job> {
    if entities == [] then []
    else Grouped(entities[..|entities| - 1], jobs) + JobsOf(jobs, entities[|entities| - 1])
  }

  function Ids(jobs: seq<Job>): seq<string> {
    seq(|jobs|, i requires 0 <= i < |jobs| => jobs[i].id)
  }

  function Keys(jobs: seq<Job>): seq<string> {
    seq(|jobs|, i requires 0 <= i < |jobs| => jobs[i].entityKey)
  }

  // ------------------------------------------------------ what grouping gives

  lemma {:induction false} JobsOfIn(jobs: seq<Job>, entity: string, j: Job)
    ensures j in JobsOf(jobs, entity) <==> j in jobs && j.entityKey == entity
  {
    if jobs != [] {
      var n := |jobs| - 1;
      JobsOfIn(jobs[..n], entity, j);
      assert jobs == jobs[..n] + [jobs[n]];
    }
  }

  lemma {:induction false} GroupedIn(entities: seq<string>, jobs: seq<Job>, j: Job)
    ensures j in Grouped(entities, jobs) <==> j in jobs && j.entityKey in entities
  {
    if entities != [] {
      var n := |entities| - 1;
      GroupedIn(entities[..n], jobs, j);
      JobsOfIn(jobs, entities[n], j);
      assert entities == entities[..n] + [entities[n]];
    }
  }

  /** The jobs whose entity is in `s`, in input order. */
  ghost function JobsIn(jobs: seq<Job>, s: set<string>): multiset<Job> {
    if jobs == [] then multiset{}
    else
      JobsIn(jobs[..|jobs| - 1], s)
      + (if jobs[|jobs| - 1].entityKey in s then multiset{jobs[|jobs| - 1]} else multiset{})
  }

  lemma {:induction false} JobsInAdd(jobs: seq<Job>, s: set<string>, e: string)
    requires e !in s
    ensures JobsIn(jobs, s + {e}) == JobsIn(jobs, s) + multiset(JobsOf(jobs, e))
  {
    if jobs != [] { JobsInAdd(jobs[..|jobs| - 1], s, e); }
  }

  lemma {:induction false} JobsInAll(jobs: seq<Job>, s: set<string>)
    requires forall j :: j in jobs ==> j.entityKey in s
    ensures JobsIn(jobs, s) == multiset(jobs)
  {
    if jobs != [] {
      var n := |jobs| - 1;
      assert jobs == jobs[..n] + [jobs[n]];
      JobsInAll(jobs[..n], s);
    }
  }

  lemma {:induction false} JobsInNone(jobs: seq<Job>)
    ensures JobsIn(jobs, {}) == multiset{}
  {
    if jobs != [] { JobsInNone(jobs[..|jobs| - 1]); }
  }

  lemma {:induction false} GroupedCounts(entities: seq<string>, jobs: seq<Job>)
    requires Distinct(entities)
    ensures multiset(Grouped(entities, jobs)) == JobsIn(jobs, ToSet(entities))
  {
    if entities == [] {
      assert ToSet(entities) == {};
      JobsInNone(jobs);
    } else {
      var n := |entities| - 1;
      GroupedCounts(entities[..n], jobs);
      assert entities == entities[..n] + [entities[n]];
      assert ToSet(entities) == ToSet(entities[..n]) + {entities[n]};
      JobsInAdd(jobs, ToSet(entities[..n]), entities[n]);
    }
  }

  /** Every job once, none lost. */
  lemma GroupedIsPermutation(entities: seq<string>, jobs: seq<Job>)
    requires Distinct(entities) && ToSet(entities) == EntitySet(jobs)
    ensures multiset(Grouped(entities, jobs)) == multiset(jobs)
  {
    GroupedCounts(entities, jobs);
    JobsInAll(jobs, ToSet(entities));
  }

  /** A position in the grouped list lies in the group of an entity. */
  lemma {:induction false} GroupedSorted(entities: seq<string>, jobs: seq<Job>, x: nat, y: nat)
    requires Distinct(entities) && x < y < |Grouped(entities, jobs)|
    ensures var g := Grouped(entities, jobs);
      exists a, b :: 0 <= a <= b < |entities| && entities[a] == g[x].entityKey && entities[b] == g[y].entityKey
  {
    var n := |entities| - 1;
    var g := Grouped(entities, jobs);
    var less := Grouped(entities[..n], jobs);
    if y < |less| {
      GroupedSorted(entities[..n], jobs, x, y);
      var a, b :| 0 <= a <= b < n && entities[..n][a] == less[x].entityKey && entities[..n][b] == less[y].entityKey;
      assert entities[a] == g[x].entityKey && entities[b] == g[y].entityKey;
    } else {
      JobsOfIn(jobs, entities[n], g[y]);
      if x < |less| {
        GroupedIn(entities[..n], jobs, g[x]);
        var a :| 0 <= a < n && entities[..n][a] == g[x].entityKey;
        assert entities[a] == g[x].entityKey && entities[n] == g[y].entityKey;
      } else {
        JobsOfIn(jobs, entities[n], g[x]);
        assert entities[n] == g[x].entityKey && entities[n] == g[y].entityKey;
      }
    }
  }

  /** Every job of a dependency stands before every job of its depender. */
  lemma GroupedRespects(entities: seq<string>, jobs: seq<Job>, e: Edges, x: nat, y: nat)
    requires Distinct(entities) && Ordered(e, entities)
    requires x < |Grouped(entities, jobs)| && y < |Grouped(entities, jobs)|
    requires (Grouped(entities, jobs)[x].entityKey, Grouped(entities, jobs)[y].entityKey) in e
    ensures x < y
  {
    var g := Grouped(entities, jobs);
    GroupedIn(entities, jobs, g[y]);
    var b :| 0 <= b < |entities| && entities[b] == g[y].entityKey;
    assert (g[x].entityKey, entities[b]) in e;
    var a :| 0 <= a < b && entities[a] == g[x].entityKey;
    if y < x {
      GroupedSorted(entities, jobs, y, x);
    }
  }

  /** Within one entity the input order is kept. */
  lemma {:induction false} JobsOfKeepOrder(jobs: seq<Job>, entity: string, x: nat, y: nat)
    requires x < y < |JobsOf(jobs, entity)|
    ensures var g := JobsOf(jobs, entity);
      exists i, j :: 0 <= i < j < |jobs| && jobs[i] == g[x] && jobs[j] == g[y]
  {
    var n := |jobs| - 1;
    var g, less := JobsOf(jobs, entity), JobsOf(jobs[..n], entity);
    if y < |less| {
      JobsOfKeepOrder(jobs[..n], entity, x, y);
      var i, j :| 0 <= i < j < n && jobs[..n][i] == less[x] && jobs[..n][j] == less[y];
      assert jobs[i] == g[x] && jobs[j] == g[y];
    } else {
      JobsOfIn(jobs[..n], entity, g[x]);
      assert g[x] in less;
      var i :| 0 <= i < n && jobs[..n][i] == g[x];
      assert jobs[i] == g[x] && jobs[n] == g[y];
    }
  }

  lemma EarlierGroupsDiffer(entities: seq<string>, jobs: seq<Job>)
    requires Distinct(entities) && entities != []
    ensures var n := |entities| - 1;
      forall j :: j in Grouped(entities[..n], jobs) ==> j.entityKey != entities[n]
  {
    var n := |entities| - 1;
    forall j | j in Grouped(entities[..n], jobs) ensures j.entityKey != entities[n] {
      GroupedIn(entities[..n], jobs, j);
      assert entities[n] !in entities[..n];
    }
  }

  lemma {:induction false} GroupedKeepsOrder(entities: seq<string>, jobs: seq<Job>, x: nat, y: nat)
    requires Distinct(entities) && x < y < |Grouped(entities, jobs)|
    requires Grouped(entities, jobs)[x].entityKey == Grouped(entities, jobs)[y].entityKey
    ensures var g := Grouped(entities, jobs);
      exists i, j :: 0 <= i < j < |jobs| && jobs[i] == g[x] && jobs[j] == g[y]
  {
    var n := |entities| - 1;
    var g := Grouped(entities, jobs);
    var less := Grouped(entities[..n], jobs);
    if y < |less| {
      GroupedKeepsOrder(entities[..n], jobs, x, y);
    } else {
      JobsOfIn(jobs, entities[n], g[y]);
      EarlierGroupsDiffer(entities, jobs);
      JobsOfKeepOrder(jobs, entities[n], x - |less|, y - |less|);
    }
  }

  // --------------------------------------------------------------- the method

  /** What the caller gets, read as one list of jobs. */
  ghost predicate SessionOrderOk(jobs: seq<Job>, deps: map<string, seq<string>>, out: seq<Job>) {
    && multiset(out) == multiset(jobs)
    && (forall x, y :: 0 <= x < |out| && 0 <= y < |out| && DependsOn(deps, out[y].entityKey, out[x].entityKey)
          ==> x < y)
    && (forall x, y :: 0 <= x < |out| && 0 <= y < |out|
          && !Waits(SessionEdges(jobs, deps), out[x].entityKey) && Waits(SessionEdges(jobs, deps), out[y].entityKey)
          ==> x < y)
    && (forall x, y :: 0 <= x < y < |out| && out[x].entityKey == out[y].entityKey
          ==> exists i, j :: 0 <= i < j < |jobs| && jobs[i] == out[x] && jobs[j] == out[y])
  }

  /** Jobs that wait for nothing in the session stand ahead of all that do. */
  lemma GroupedFreeFirst(entities: seq<string>, jobs: seq<Job>, e: Edges, x: nat, y: nat)
    requires Distinct(entities) && FreeFirst(e, entities)
    requires x < |Grouped(entities, jobs)| && y < |Grouped(entities, jobs)|
    requires !Waits(e, Grouped(entities, jobs)[x].entityKey) && Waits(e, Grouped(entities, jobs)[y].entityKey)
    ensures x < y
  {
    if y < x {
      GroupedSorted(entities, jobs, y, x);
    }
  }

  lemma GroupedIsSessionOrder(entities: seq<string>, jobs: seq<Job>, deps: map<string, seq<string>>)
    requires Distinct(entities) && ToSet(entities) == EntitySet(jobs)
    requires Ordered(SessionEdges(jobs, deps), entities) && FreeFirst(SessionEdges(jobs, deps), entities)
    ensures SessionOrderOk(jobs, deps, Grouped(entities, jobs))
  {
    var g := Grouped(entities, jobs);
    GroupedIsPermutation(entities, jobs);
    forall x, y | 0 <= x < |g| && 0 <= y < |g| && DependsOn(deps, g[y].entityKey, g[x].entityKey) ensures x < y {
      GroupedIn(entities, jobs, g[x]);
      GroupedIn(entities, jobs, g[y]);
      GroupedRespects(entities, jobs, SessionEdges(jobs, deps), x, y);
    }
    forall x, y | 0 <= x < |g| && 0 <= y < |g|
      && !Waits(SessionEdges(jobs, deps), g[x].entityKey) && Waits(SessionEdges(jobs, deps), g[y].entityKey)
      ensures x < y
    {
      GroupedFreeFirst(entities, jobs, SessionEdges(jobs, deps), x, y);
    }
    forall x, y | 0 <= x < y < |g| && g[x].entityKey == g[y].entityKey
      ensures exists i, j :: 0 <= i < j < |jobs| && jobs[i] == g[x] && jobs[j] == g[y]
    {
      GroupedKeepsOrder(entities, jobs, x, y);
    }
  }

  method PresentEntities(jobs: seq<Job>) returns (present: seq<string>)
    ensures Distinct(present) && ToSet(present) == EntitySet(jobs)
  {
    present := [];
    for i := 0 to |jobs|
      invariant Distinct(present) && ToSet(present) == EntitySet(jobs[..i])
    {
      assert jobs[..i + 1] == jobs[..i] + [jobs[i]];
      assert EntitySet(jobs[..i + 1]) == EntitySet(jobs[..i]) + {jobs[i].entityKey};
      assert jobs[i].entityKey in present <==> jobs[i].entityKey in ToSet(present);
      assert ToSet(present + [jobs[i].entityKey]) == ToSet(present) + {jobs[i].entityKey};
      if jobs[i].entityKey !in present {
        present := present + [jobs[i].entityKey];
      }
    }
    assert jobs[..|jobs|] == jobs;
  }

  method Filter(declared: seq<string>, present: seq<string>) returns (kept: seq<string>)
    ensures forall d :: d in kept <==> d in declared && d in present
  {
    kept := [];
    for i := 0 to |declared|
      invariant forall d :: d in kept <==> d in declared[..i] && d in present
    {
      assert declared[..i + 1] == declared[..i] + [declared[i]];
      if declared[i] in present {
        kept := kept + [declared[i]];
      }
    }
    assert declared[..|declared|] == declared;
  }

  method LocalDependencies(jobs: seq<Job>, deps: map<string, seq<string>>) returns (local: Dependencies)
    ensures DependencyEdges(local) == SessionEdges(jobs, deps)
    ensures Mentioned(local) == EntitySet(jobs)
  {
    var present := PresentEntities(jobs);
    local := [];
    for i := 0 to |present|
      invariant |local| == i
      invariant forall k :: 0 <= k < i ==>
        && local[k].0 == present[k]
        && forall d :: d in local[k].1 <==> DependsOn(deps, present[k], d) && d in present
    {
      var kept := Filter(if present[i] in deps then deps[present[i]] else [], present);
      local := local + [(present[i], kept)];
    }
    LocalIsSession(jobs, deps, present, local);
  }

  lemma LocalIsSession(jobs: seq<Job>, deps: map<string, seq<string>>, present: seq<string>, local: Dependencies)
    requires ToSet(present) == EntitySet(jobs) && |local| == |present|
    requires forall k :: 0 <= k < |present| ==>
      && local[k].0 == present[k]
      && forall d :: d in local[k].1 <==> DependsOn(deps, present[k], d) && d in present
    ensures DependencyEdges(local) == SessionEdges(jobs, deps)
    ensures Mentioned(local) == EntitySet(jobs)
  {
    assert forall k :: 0 <= k < |present| ==> present[k] in ToSet(present);
    assert forall k, d :: 0 <= k < |local| && d in local[k].1 ==> d in ToSet(present);
    forall d, e ensures (d, e) in DependencyEdges(local) <==> (d, e) in SessionEdges(jobs, deps) {
      if (d, e) in SessionEdges(jobs, deps) {
        assert e in ToSet(present) && d in ToSet(present);
        var k :| 0 <= k < |present| && present[k] == e;
        assert d in local[k].1;
      }
    }
    forall e ensures e in Mentioned(local) <==> e in EntitySet(jobs) {
      if e in EntitySet(jobs) {
        assert e in ToSet(present);
        var k :| 0 <= k < |present| && present[k] == e;
        assert local[k].0 == e;
      }
    }
  }

  /** The groups, each a list of ids in input order. */
  method JobsByEntity(jobs: seq<Job>) returns (groups: map<string, seq<string>>)
    ensures groups.Keys == EntitySet(jobs)
    ensures forall e :: e in groups ==> groups[e] == Ids(JobsOf(jobs, e))
  {
    groups := map[];
    for i := 0 to |jobs|
      invariant groups.Keys == EntitySet(jobs[..i])
      invariant forall e :: e in groups ==> groups[e] == Ids(JobsOf(jobs[..i], e))
    {
      var key := jobs[i].entityKey;
      assert jobs[..i + 1][..i] == jobs[..i];
      assert jobs[..i + 1] == jobs[..i] + [jobs[i]];
      assert EntitySet(jobs[..i + 1]) == EntitySet(jobs[..i]) + {key};
      if key !in groups {
        NoJobsYet(jobs[..i], key);
        groups := groups[key := []];
      }
      assert Ids(JobsOf(jobs[..i], key) + [jobs[i]]) == Ids(JobsOf(jobs[..i], key)) + [jobs[i].id];
      groups := groups[key := groups[key] + [jobs[i].id]];
    }
    assert jobs[..|jobs|] == jobs;
  }

  lemma NoJobsYet(jobs: seq<Job>, key: string)
    requires key !in EntitySet(jobs)
    ensures JobsOf(jobs, key) == []
  {
    var g := JobsOf(jobs, key);
    assert g == [] || g[0] in g;
    if g != [] { JobsOfIn(jobs, key, g[0]); }
  }

  /** The ids already placed, and those still to place, never meet. */
  lemma NotYetAdded(entities: seq<string>, jobs: seq<Job>, n: nat, k: nat)
    requires DistinctIds(jobs) && Distinct(entities) && n < |entities| && k < |JobsOf(jobs, entities[n])|
    ensures var placed := Grouped(entities[..n], jobs) + JobsOf(jobs, entities[n])[..k];
      JobsOf(jobs, entities[n])[k].id !in Ids(placed)
  {
    var g := JobsOf(jobs, entities[n]);
    var less := Grouped(entities[..n], jobs);
    var placed := less + g[..k];
    JobsOfIn(jobs, entities[n], g[k]);
    assert entities[..n + 1][..n] == entities[..n];
    EarlierGroupsDiffer(entities[..n + 1], jobs);
    forall p | 0 <= p < |placed| ensures placed[p].id != g[k].id {
      if p < |less| {
        assert placed[p] in less;
        GroupedIn(entities[..n], jobs, placed[p]);
      } else {
        var q := p - |less|;
        JobsOfKeepOrder(jobs, entities[n], q, k);
      }
    }
  }

  /** The fallback loop finds nothing to add. */
  lemma AllPlaced(entities: seq<string>, jobs: seq<Job>, i: nat)
    requires ToSet(entities) == EntitySet(jobs) && i < |jobs|
    ensures jobs[i].id in Ids(Grouped(entities, jobs))
  {
    var out := Grouped(entities, jobs);
    assert jobs[i].entityKey in EntitySet(jobs);
    assert jobs[i].entityKey in ToSet(entities);
    GroupedIn(entities, jobs, jobs[i]);
    var k :| 0 <= k < |out| && out[k] == jobs[i];
    assert Ids(out)[k] == jobs[i].id;
  }

  method AddGroup(ghost jobs: seq<Job>, entities: seq<string>, n: nat, entityJobs: seq<string>,
                  ids: seq<string>, keys: seq<string>, added: set<string>)
    returns (ids': seq<string>, keys': seq<string>, added': set<string>)
    requires Distinct(entities) && n < |entities| && added == ToSet(ids)
    requires entityJobs == Ids(JobsOf(jobs, entities[n]))
    requires DistinctIds(jobs) ==>
      ids == Ids(Grouped(entities[..n], jobs)) && keys == Keys(Grouped(entities[..n], jobs))
    ensures added' == ToSet(ids')
    ensures DistinctIds(jobs) ==>
      var placed := Grouped(entities[..n], jobs) + JobsOf(jobs, entities[n]);
      ids' == Ids(placed) && keys' == Keys(placed)
  {
    ids', keys', added' := ids, keys, added;
    ghost var distinct := DistinctIds(jobs);
    ghost var g, less := JobsOf(jobs, entities[n]), Grouped(entities[..n], jobs);
    assert less + g[..0] == less;
    for k := 0 to |entityJobs|
      invariant added' == ToSet(ids')
      invariant distinct ==> ids' == Ids(less + g[..k]) && keys' == Keys(less + g[..k])
    {
      if distinct {
        NotYetAdded(entities, jobs, n, k);
        PlaceOne(jobs, entities[n], less, k);
      }
      if entityJobs[k] !in added' {
        ids' := ids' + [entityJobs[k]];
        keys' := keys' + [entities[n]];
        added' := added' + {entityJobs[k]};
      }
    }
    assert g[..|g|] == g;
  }

  lemma PlaceOne(jobs: seq<Job>, entity: string, less: seq<Job>, k: nat)
    requires k < |JobsOf(jobs, entity)|
    ensures var g := JobsOf(jobs, entity);
      && Ids(less + g[..k + 1]) == Ids(less + g[..k]) + [g[k].id]
      && Keys(less + g[..k + 1]) == Keys(less + g[..k]) + [entity]
  {
    JobsOfIn(jobs, entity, JobsOf(jobs, entity)[k]);
  }

  /** Entity by entity, the ids not placed yet. */
  method PlaceGroups(ghost jobs: seq<Job>, entities: seq<string>, groups: map<string, seq<string>>)
    returns (ids: seq<string>, keys: seq<string>, added: set<string>)
    requires Distinct(entities) && groups.Keys == ToSet(entities)
    requires forall e :: e in groups ==> groups[e] == Ids(JobsOf(jobs, e))
    ensures added == ToSet(ids)
    ensures DistinctIds(jobs) ==> ids == Ids(Grouped(entities, jobs)) && keys == Keys(Grouped(entities, jobs))
  {
    ids, keys, added := [], [], {};
    for n := 0 to |entities|
      invariant added == ToSet(ids)
      invariant DistinctIds(jobs) ==>
        ids == Ids(Grouped(entities[..n], jobs)) && keys == Keys(Grouped(entities[..n], jobs))
    {
      assert entities[n] in ToSet(entities);
      ids, keys, added := AddGroup(jobs, entities, n, groups[entities[n]], ids, keys, added);
      assert entities[..n + 1][..n] == entities[..n];
    }
    assert entities[..|entities|] == entities;
  }

  /** The fallback loop: jobs whose entity was not in the graph. */
  method PlaceRest(jobs: seq<Job>, ghost entities: seq<string>, ids: seq<string>, keys: seq<string>, added: set<string>)
    returns (ids': seq<string>, keys': seq<string>)
    requires added == ToSet(ids) && ToSet(entities) == EntitySet(jobs)
    ensures ids == Ids(Grouped(entities, jobs)) ==> ids' == ids && keys' == keys
  {
    ids', keys' := ids, keys;
    var added' := added;
    for i := 0 to |jobs|
      invariant ids == Ids(Grouped(entities, jobs)) ==> ids' == ids && keys' == keys && added' == added
    {
      AllPlaced(entities, jobs, i);
      if jobs[i].id !in added' {
        ids' := ids' + [jobs[i].id];
        keys' := keys' + [jobs[i].entityKey];
        added' := added' + {jobs[i].id};
      }
    }
  }

  /** Orders the jobs of a session. The ids come back in execution order with their
      entity keys alongside; a cycle among the entities present is an error. */
  method ComputeSessionExecutionOrder(jobs: seq<Job>, deps: map<string, seq<string>>)
    returns (r: Result<(seq<string>, seq<string>), SortError>)
    ensures r.Ok? <==> Acyclic(SessionEdges(jobs, deps))
    ensures r.Err? ==> Distinct(r.error.entities) && ToSet(r.error.entities) == EntitySet(jobs)
    ensures r.Ok? && DistinctIds(jobs) ==>
      exists out :: SessionOrderOk(jobs, deps, out) && r.value == (Ids(out), Keys(out))
  {
    var local := LocalDependencies(jobs, deps);
    var sorted := Sort(local);
    if sorted.Err? {
      return Err(sorted.error);
    }
    var groups := JobsByEntity(jobs);
    var ids, keys, added := PlaceGroups(jobs, sorted.value, groups);
    ids, keys := PlaceRest(jobs, sorted.value, ids, keys, added);
    GroupedIsSessionOrder(sorted.value, jobs, deps);
    r := Ok((ids, keys));
  }

  // ------------------------------------------------------ jobs without declarations

  const STAFF: seq<Job> := [Job("1", "employee"), Job("2", "orgunit"), Job("3", "note")]
  const STAFF_DEPENDENCIES: map<string, seq<string>> := map["employee" := ["orgunit"]]

  /** A job with no declared dependencies is not ordered last: here the note stands
      ahead of the employee, whatever else the order does. */
  lemma NoDeclarationExample(out: seq<Job>)
    requires SessionOrderOk(STAFF, STAFF_DEPENDENCIES, out)
    ensures |out| == 3 && out[2] == Job("1", "employee")
  {
    var e := SessionEdges(STAFF, STAFF_DEPENDENCIES);
    assert STAFF[0] in STAFF && STAFF[1] in STAFF && STAFF[2] in STAFF;
    assert |out| == |multiset(out)| == |multiset(STAFF)| == |STAFF|;
    assert ("orgunit", "employee") in e;
    assert !Waits(e, "orgunit") && !Waits(e, "note");
    assert Job("1", "employee") in multiset(STAFF) && Job("2", "orgunit") in multiset(STAFF)
      && Job("3", "note") in multiset(STAFF);
    var x :| 0 <= x < |out| && out[x] == Job("1", "employee");
    var y :| 0 <= y < |out| && out[y] == Job("2", "orgunit");
    var z :| 0 <= z < |out| && out[z] == Job("3", "note");
  }
}
