/** How each row ends in an uninterrupted run, said of the row, the error codes and the
    text of the message, and of nothing in between. */
module CommitOutcome {
  import opened Wrappers
  import opened StagedRows
  import opened JobStore
  import opened Text
  import opened CommitEngine
  import opened CommitBatches

  /** Somewhere in the text stands MongoDB's name for the error. */
  ghost predicate MentionsE11000(s: string) {
    exists k: nat :: StandsAt(s, k, "E11000")
  }

  /** An entity of the target has the row's identity. */
  ghost predicate IdentityIn(target: multiset<Entity>, field: string, fields: Fields) {
    field in fields && exists e :: e in target && field in e.fields && e.fields[field] == fields[field]
  }

  lemma DuplicateKeyText(e: Error)
    ensures IsDuplicateKeyError(e) <==> e.code == Some(11000) || e.code == Some(11001) || MentionsE11000(e.message)
  {
    ContainsAt(e.message, "E11000");
  }

  /** The turn of record `k`: the target `t` it meets, and what becomes of its row. */
  lemma {:induction false} AtItsTurn(b: Batch, d: Descriptor, txn: bool, todo: seq<Row>, k: nat)
    returns (t: multiset<Entity>)
    requires DistinctRecords(todo, |b.rows|) && k < |todo|
    ensures var b' := ProcessAll(b, d, txn, todo); var (out, after) := CommitRow(t, d, todo[k]);
      && b.target <= t && after <= b'.target && |b'.rows| == |b.rows|
      && b'.rows[todo[k].id] == RowsAfter(b.rows, txn, todo[k], out)[todo[k].id]
    decreases todo
  {
    var b1 := ProcessRow(b, d, txn, todo[0]);
    if k == 0 {
      t := b.target;
      assert !InTodo(todo[1..], todo[0].id);
      ProcessedRow(b1, d, txn, todo[1..], todo[0].id);
      TargetGrows(b1, d, txn, todo[1..]);
    } else {
      t := AtItsTurn(b1, d, txn, todo[1..], k - 1);
      assert b1.rows[todo[k].id] == b.rows[todo[k].id];
    }
  }

  /** The row is one the run has to deal with. */
  ghost predicate ToDo(r: Row, job: nat) {
    r.job == job && r.validation == Valid && (r.commit == Pending || r.commit == Committing)
  }

  lemma TurnOf(rows: seq<Row>, target: multiset<Entity>, d: Descriptor, txn: bool, job: nat, i: nat)
    returns (t: multiset<Entity>)
    requires Addressed(rows) && UniqueRowIndex(rows, job) && i < |rows| && ToDo(rows[i], job)
    ensures var b := RunBatch(rows, target, d, txn, job, None); var (out, after) := CommitRow(t, d, rows[i]);
      && target <= t && after <= b.target && |b.rows| == |rows|
      && b.rows[i] == RowsAfter(rows, txn, rows[i], out)[i]
  {
    SnapshotRecords(rows, job);
    var todo := Snapshot(rows, job, None);
    var k :| 0 <= k < |todo| && todo[k] == rows[i];
    t := AtItsTurn(Batch(rows, target, 0, 0), d, txn, todo, k);
  }

  /** A row the target refuses ends as failed, with the message of the refusal; unless,
      without a transaction, it was reserved before the run and the error has one of the
      two codes or mentions E11000: then it ends as committed. */
  lemma RefusedRowEnds(rows: seq<Row>, target: multiset<Entity>, d: Descriptor, txn: bool, job: nat, i: nat, e: Error)
    requires Addressed(rows) && UniqueRowIndex(rows, job) && i < |rows| && ToDo(rows[i], job)
    requires d.reject(rows[i].mappedFields) == Some(e)
    ensures var b := RunBatch(rows, target, d, txn, job, None); var r := rows[i];
      && |b.rows| == |rows|
      && b.rows[i] ==
         if !txn && r.commit == Committing
            && (e.code == Some(11000) || e.code == Some(11001) || MentionsE11000(e.message))
         then r.(commit := Committed, commitError := None)
         else r.(commit := Failed, commitError := Some(e.message))
  {
    var t := TurnOf(rows, target, d, txn, job, i);
    DuplicateKeyText(e);
  }

  /** A row the target would take is written, or stopped by an entity with its identity,
      under a unique index; a stopped row ends as committed if it was reserved before
      the run, without a transaction, and else as failed. */
  lemma AcceptedRowEnds(rows: seq<Row>, target: multiset<Entity>, d: Descriptor, txn: bool, job: nat, i: nat)
    requires Addressed(rows) && UniqueRowIndex(rows, job) && i < |rows| && ToDo(rows[i], job)
    requires d.reject(rows[i].mappedFields) == None
    ensures var b := RunBatch(rows, target, d, txn, job, None); var r := rows[i];
      |b.rows| == |rows| &&
      var written := b.rows[i] == r.(commit := Committed, entity := Some(d.refOf(i)), commitError := None)
                     && Entity(d.refOf(i), r.mappedFields) in b.target;
      var stopped := d.uniqueIndex && IdentityIn(b.target, d.identityField, r.mappedFields)
                     && b.rows[i] == if !txn && r.commit == Committing then r.(commit := Committed, commitError := None)
                                     else r.(commit := Failed, commitError := Some("E11000 duplicate key error"));
      && (written || stopped)
      && (!d.uniqueIndex || d.identityField !in r.mappedFields ==> written)
      && (d.uniqueIndex && IdentityIn(target, d.identityField, r.mappedFields) ==> stopped)
  {
    var t := TurnOf(rows, target, d, txn, job, i);
    var b := RunBatch(rows, target, d, txn, job, None);
    TakenIsIdentity(t, d, rows[i]);
    TakenIsIdentity(target, d, rows[i]);
    TakenIsIdentity(b.target, d, rows[i]);
    assert EntityOf(d, rows[i]) == Entity(d.refOf(i), rows[i].mappedFields);
    assert t <= CommitRow(t, d, rows[i]).1 <= b.target;
    TakenGrows(target, t, d, rows[i]);
    TakenGrows(t, b.target, d, rows[i]);
  }

  lemma TakenIsIdentity(target: multiset<Entity>, d: Descriptor, r: Row)
    ensures Taken(target, d, r) <==> IdentityIn(target, d.identityField, r.mappedFields)
  {
    if Taken(target, d, r) {
      var e :| e in target && Identity(d, e.fields) == Identity(d, r.mappedFields);
      assert d.identityField in e.fields && e.fields[d.identityField] == r.mappedFields[d.identityField];
    }
    if IdentityIn(target, d.identityField, r.mappedFields) {
      var e :| e in target && d.identityField in e.fields
        && e.fields[d.identityField] == r.mappedFields[d.identityField];
      assert Identity(d, e.fields) == Identity(d, r.mappedFields);
    }
  }

  lemma TakenGrows(small: multiset<Entity>, large: multiset<Entity>, d: Descriptor, r: Row)
    requires small <= large
    ensures Taken(small, d, r) ==> Taken(large, d, r)
  {
    if Taken(small, d, r) {
      var e :| e in small && Identity(d, e.fields) == Identity(d, r.mappedFields);
      assert e in large;
    }
  }

  /** Every other row is left as it is: of another import, not valid, or done before. */
  lemma OtherRowsKeep(rows: seq<Row>, target: multiset<Entity>, d: Descriptor, txn: bool, job: nat,
                      limit: Option<nat>, i: nat)
    requires Addressed(rows) && UniqueRowIndex(rows, job) && i < |rows| && !ToDo(rows[i], job)
    ensures var b := RunBatch(rows, target, d, txn, job, limit); |b.rows| == |rows| && b.rows[i] == rows[i]
  {
    SnapshotRecords(rows, job);
    var all, todo := Snapshot(rows, job, None), Snapshot(rows, job, limit);
    assert todo <= all;
    forall k | 0 <= k < |todo| ensures todo[k].id != i {
      assert todo[k] == all[k];
    }
    assert !InTodo(todo, i);
    ProcessedRow(Batch(rows, target, 0, 0), d, txn, todo, i);
  }

  lemma {:induction false} AddedByRun(b: Batch, d: Descriptor, txn: bool, todo: seq<Row>, e: Entity)
    requires e in ProcessAll(b, d, txn, todo).target
    ensures e in b.target
      || exists k :: 0 <= k < |todo| && d.reject(todo[k].mappedFields) == None
                     && e == Entity(d.refOf(todo[k].id), todo[k].mappedFields)
    decreases todo
  {
    if todo != [] {
      var b1 := ProcessRow(b, d, txn, todo[0]);
      AddedByRun(b1, d, txn, todo[1..], e);
      if e !in b1.target {
        var k :| 0 <= k < |todo[1..]| && d.reject(todo[1..][k].mappedFields) == None
          && e == Entity(d.refOf(todo[1..][k].id), todo[1..][k].mappedFields);
        assert todo[k + 1] == todo[1..][k];
      } else if e !in b.target {
        assert d.reject(todo[0].mappedFields) == None && e == EntityOf(d, todo[0]);
      }
    }
  }

  /** Whatever is new in the target is the entity of a row the run had to deal with and
      the target accepts. */
  lemma NothingElseWritten(rows: seq<Row>, target: multiset<Entity>, d: Descriptor, txn: bool, job: nat, e: Entity)
    requires Addressed(rows) && UniqueRowIndex(rows, job)
    requires e in RunBatch(rows, target, d, txn, job, None).target && e !in target
    ensures exists i :: 0 <= i < |rows| && ToDo(rows[i], job) && d.reject(rows[i].mappedFields) == None
                        && e == Entity(d.refOf(i), rows[i].mappedFields)
  {
    SnapshotRecords(rows, job);
    var todo := Snapshot(rows, job, None);
    AddedByRun(Batch(rows, target, 0, 0), d, txn, todo, e);
    var k :| 0 <= k < |todo| && d.reject(todo[k].mappedFields) == None
      && e == Entity(d.refOf(todo[k].id), todo[k].mappedFields);
    var i := todo[k].id;
    assert rows[i] == todo[k] && rows[i].id == i;
  }

  /** A limit above zero takes the first rows in the order of their index, a missing one
      or zero takes all. */
  lemma LimitTakesFirst(rows: seq<Row>, job: nat, limit: Option<nat>)
    requires Addressed(rows) && UniqueRowIndex(rows, job)
    ensures var all, some := Snapshot(rows, job, None), Snapshot(rows, job, limit);
      && (forall r :: r in all <==> r in rows && ToDo(r, job))
      && (forall k, l :: 0 <= k < l < |all| ==> all[k].rowIndex < all[l].rowIndex)
      && (limit == None || limit == Some(0) ==> some == all)
      && (limit.Some? && limit.value > 0 ==>
            some <= all && |some| == if |all| < limit.value then |all| else limit.value)
  {
    SnapshotSpec(rows, job);
  }

  /** How many of the records have this status in `after`. */
  ghost function Ending(todo: seq<Row>, after: seq<Row>, status: CommitStatus): nat
    requires DistinctRecords(todo, |after|)
    decreases todo
  {
    if todo == [] then 0
    else (if after[todo[0].id].commit == status then 1 else 0) + Ending(todo[1..], after, status)
  }

  /** The counters are the numbers of records that end as committed and as failed. */
  lemma {:induction false} CountersTell(b: Batch, d: Descriptor, txn: bool, todo: seq<Row>)
    requires DistinctRecords(todo, |b.rows|)
    ensures var b' := ProcessAll(b, d, txn, todo);
      && |b'.rows| == |b.rows|
      && b'.committed == b.committed + Ending(todo, b'.rows, Committed)
      && b'.failed == b.failed + Ending(todo, b'.rows, Failed)
    decreases todo
  {
    if todo != [] {
      var b1 := ProcessRow(b, d, txn, todo[0]);
      assert !InTodo(todo[1..], todo[0].id);
      ProcessedRow(b1, d, txn, todo[1..], todo[0].id);
      CountersTell(b1, d, txn, todo[1..]);
    }
  }

  lemma RunCounts(rows: seq<Row>, target: multiset<Entity>, d: Descriptor, txn: bool, job: nat, limit: Option<nat>)
    requires Addressed(rows) && UniqueRowIndex(rows, job)
    ensures var b, todo := RunBatch(rows, target, d, txn, job, limit), Snapshot(rows, job, limit);
      && DistinctRecords(todo, |b.rows|)
      && b.committed == Ending(todo, b.rows, Committed) && b.failed == Ending(todo, b.rows, Failed)
      && b.committed + b.failed == |todo|
  {
    SnapshotRecords(rows, job);
    assert Snapshot(rows, job, limit) <= Snapshot(rows, job, None);
    CountersTell(Batch(rows, target, 0, 0), d, txn, Snapshot(rows, job, limit));
    ProcessedCounts(Batch(rows, target, 0, 0), d, txn, Snapshot(rows, job, limit));
  }
}
