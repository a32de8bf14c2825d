/** What treating a list of records one by one does to rows, target and counters. */
module CommitBatches {
  import opened StagedRows
  import opened CommitEngine

  ghost predicate InTodo(todo: seq<Row>, i: nat) {
    exists k :: 0 <= k < |todo| && todo[k].id == i
  }

  /** A batch settles the rows it was given and touches no other. */
  lemma {:induction false} ProcessedRow(b: Batch, d: Descriptor, txn: bool, todo: seq<Row>, i: nat)
    requires i < |b.rows|
    ensures var b' := ProcessAll(b, d, txn, todo);
      && |b'.rows| == |b.rows| && SameContent(b'.rows[i], b.rows[i])
      && (!InTodo(todo, i) ==> b'.rows[i] == b.rows[i])
      && (InTodo(todo, i) ==> b'.rows[i].commit.Committed? || b'.rows[i].commit.Failed?)
      && (InTodo(todo, i) && b'.failed == b.failed ==> b'.rows[i].commit.Committed?)
      && b'.failed >= b.failed
      && b'.committed + b'.failed == b.committed + b.failed + |todo|
    decreases todo
  {
    if todo != [] {
      var b1 := ProcessRow(b, d, txn, todo[0]);
      ProcessedRow(b1, d, txn, todo[1..], i);
      assert InTodo(todo, i) <==> todo[0].id == i || InTodo(todo[1..], i) by {
        if InTodo(todo, i) && todo[0].id != i {
          var k :| 0 <= k < |todo| && todo[k].id == i;
          assert todo[1..][k - 1].id == i;
        } else if InTodo(todo[1..], i) {
          var k :| 0 <= k < |todo[1..]| && todo[1..][k].id == i;
          assert todo[k + 1].id == i;
        }
      }
    }
  }

  lemma {:induction false} ProcessedCounts(b: Batch, d: Descriptor, txn: bool, todo: seq<Row>)
    ensures var b' := ProcessAll(b, d, txn, todo);
      b'.committed + b'.failed == b.committed + b.failed + |todo| && |b'.rows| == |b.rows|
    decreases todo
  {
    if todo != [] { ProcessedCounts(ProcessRow(b, d, txn, todo[0]), d, txn, todo[1..]); }
  }

  lemma {:induction false} ProcessAppend(b: Batch, d: Descriptor, txn: bool, xs: seq<Row>, ys: seq<Row>)
    ensures ProcessAll(b, d, txn, xs + ys) == ProcessAll(ProcessAll(b, d, txn, xs), d, txn, ys)
    decreases xs
  {
    if xs == [] {
      assert xs + ys == ys;
    } else {
      assert (xs + ys)[1..] == xs[1..] + ys;
      ProcessAppend(ProcessRow(b, d, txn, xs[0]), d, txn, xs[1..], ys);
    }
  }

  function Plus(b: Batch, committed: nat, failed: nat): Batch {
    b.(committed := b.committed + committed, failed := b.failed + failed)
  }

  lemma PlusStep(b: Batch, d: Descriptor, txn: bool, r: Row, c: nat, f: nat)
    ensures ProcessRow(Plus(b, c, f), d, txn, r) == Plus(ProcessRow(b, d, txn, r), c, f)
  {
  }

  lemma {:induction false} ProcessPlus(b: Batch, d: Descriptor, txn: bool, todo: seq<Row>, c: nat, f: nat)
    ensures ProcessAll(Plus(b, c, f), d, txn, todo) == Plus(ProcessAll(b, d, txn, todo), c, f)
    decreases todo
  {
    if todo != [] {
      PlusStep(b, d, txn, todo[0], c, f);
      ProcessPlus(ProcessRow(b, d, txn, todo[0]), d, txn, todo[1..], c, f);
    }
  }

  lemma {:induction false} TargetGrows(b: Batch, d: Descriptor, txn: bool, todo: seq<Row>)
    ensures b.target <= ProcessAll(b, d, txn, todo).target
    decreases todo
  {
    if todo != [] { TargetGrows(ProcessRow(b, d, txn, todo[0]), d, txn, todo[1..]); }
  }

  /** A failure leaves a row marked as failed. */
  lemma {:induction false} FailureShows(b: Batch, d: Descriptor, txn: bool, todo: seq<Row>)
    requires DistinctRecords(todo, |b.rows|)
    ensures var b' := ProcessAll(b, d, txn, todo);
      && |b'.rows| == |b.rows| && b'.failed >= b.failed
      && (b'.failed > b.failed ==> exists k :: 0 <= k < |todo| && b'.rows[todo[k].id].commit.Failed?)
    decreases todo
  {
    if todo != [] {
      var b1 := ProcessRow(b, d, txn, todo[0]);
      assert !InTodo(todo[1..], todo[0].id);
      ProcessedRow(b1, d, txn, todo[1..], todo[0].id);
      FailureShows(b1, d, txn, todo[1..]);
      var b' := ProcessAll(b, d, txn, todo);
      if b'.failed > b1.failed {
        var k :| 0 <= k < |todo[1..]| && b'.rows[todo[1..][k].id].commit.Failed?;
        assert todo[k + 1] == todo[1..][k];
      }
    }
  }

  /** After a good record has been dealt with, its identity is taken. */
  lemma DealtWithIsTaken(b: Batch, d: Descriptor, txn: bool, r: Row)
    requires d.uniqueIndex && Accepts(d, r) && Identity(d, r.mappedFields).Some?
    ensures Taken(ProcessRow(b, d, txn, r).target, d, r)
  {
    if !Taken(b.target, d, r) {
      assert EntityOf(d, r) in ProcessRow(b, d, txn, r).target;
    }
  }

  /** So it is at the end of any run that has the record. */
  lemma {:induction false} TakenAfter(b: Batch, d: Descriptor, txn: bool, todo: seq<Row>, k: nat)
    requires k < |todo| && d.uniqueIndex && Accepts(d, todo[k]) && Identity(d, todo[k].mappedFields).Some?
    ensures Taken(ProcessAll(b, d, txn, todo).target, d, todo[k])
    decreases todo
  {
    var b1 := ProcessRow(b, d, txn, todo[0]);
    if k == 0 {
      DealtWithIsTaken(b, d, txn, todo[0]);
      TargetGrows(b1, d, txn, todo[1..]);
      assert b1.target <= ProcessAll(b, d, txn, todo).target;
    } else {
      TakenAfter(b1, d, txn, todo[1..], k - 1);
    }
  }

  /** No unique index can stop the write of this record. */
  ghost predicate NeverStopped(d: Descriptor, r: Row) {
    Accepts(d, r) && !Stoppable(d, r)
  }

  /** Such a record adds its entity again whenever it is in a run. */
  lemma {:induction false} WrittenOnceMore(b: Batch, d: Descriptor, txn: bool, todo: seq<Row>, k: nat)
    requires k < |todo| && NeverStopped(d, todo[k])
    ensures b.target + multiset{EntityOf(d, todo[k])} <= ProcessAll(b, d, txn, todo).target
    decreases todo
  {
    var b1 := ProcessRow(b, d, txn, todo[0]);
    if k == 0 {
      TargetGrows(b1, d, txn, todo[1..]);
    } else {
      WrittenOnceMore(b1, d, txn, todo[1..], k - 1);
      assert b.target <= b1.target;
    }
  }

  /** An entity that no record of the run stands for does not appear. */
  lemma {:induction false} NotAdded(b: Batch, d: Descriptor, txn: bool, todo: seq<Row>, x: Entity)
    requires x !in b.target && forall k :: 0 <= k < |todo| ==> EntityOf(d, todo[k]) != x
    ensures x !in ProcessAll(b, d, txn, todo).target
    decreases todo
  {
    if todo != [] { NotAdded(ProcessRow(b, d, txn, todo[0]), d, txn, todo[1..], x); }
  }

  /** Record `k` is the only one that stands for its entity. */
  ghost predicate OwnEntity(d: Descriptor, todo: seq<Row>, k: nat)
    requires k < |todo|
  {
    forall l :: 0 <= l < |todo| && l != k ==> EntityOf(d, todo[l]) != EntityOf(d, todo[k])
  }

  /** A record that the index stops does not get its entity. */
  lemma {:induction false} StoppedNotWritten(b: Batch, d: Descriptor, txn: bool, todo: seq<Row>, k: nat)
    requires k < |todo| && d.uniqueIndex && Taken(b.target, d, todo[k])
    requires EntityOf(d, todo[k]) !in b.target && OwnEntity(d, todo, k)
    ensures EntityOf(d, todo[k]) !in ProcessAll(b, d, txn, todo).target
    decreases todo
  {
    var b1 := ProcessRow(b, d, txn, todo[0]);
    if k == 0 {
      NotAdded(b1, d, txn, todo[1..], EntityOf(d, todo[0]));
    } else {
      assert b.target <= b1.target;
      StoppedNotWritten(b1, d, txn, todo[1..], k - 1);
    }
  }

  /** Of two records with one identity, the later does not get its entity. */
  lemma {:induction false} ClashNotWritten(b: Batch, d: Descriptor, txn: bool, todo: seq<Row>, k: nat, l: nat)
    requires k < l < |todo| && d.uniqueIndex && Accepts(d, todo[k]) && Identity(d, todo[k].mappedFields).Some?
    requires Identity(d, todo[k].mappedFields) == Identity(d, todo[l].mappedFields)
    requires EntityOf(d, todo[l]) !in b.target && OwnEntity(d, todo, l)
    ensures EntityOf(d, todo[l]) !in ProcessAll(b, d, txn, todo).target
    decreases todo
  {
    var b1 := ProcessRow(b, d, txn, todo[0]);
    if k == 0 {
      DealtWithIsTaken(b, d, txn, todo[0]);
      assert Taken(b1.target, d, todo[l]);
      StoppedNotWritten(b1, d, txn, todo[1..], l - 1);
    } else {
      ClashNotWritten(b1, d, txn, todo[1..], k - 1, l - 1);
    }
  }

  /** A good record whose identity is free when its turn comes is written, and ends as
      committed. */
  lemma {:induction false} FreeRowCommits(b: Batch, d: Descriptor, txn: bool, todo: seq<Row>, k: nat)
    requires DistinctRecords(todo, |b.rows|) && k < |todo|
    requires Accepts(d, todo[k]) && !Taken(b.target, d, todo[k])
    requires forall l :: 0 <= l < k && Accepts(d, todo[l]) ==> !Clash(d, todo[k], todo[l])
    ensures var b' := ProcessAll(b, d, txn, todo);
      && |b'.rows| == |b.rows| && b'.rows[todo[k].id].commit.Committed?
      && EntityOf(d, todo[k]) in b'.target
    decreases todo
  {
    var b1 := ProcessRow(b, d, txn, todo[0]);
    if k == 0 {
      assert !InTodo(todo[1..], todo[0].id);
      ProcessedRow(b1, d, txn, todo[1..], todo[0].id);
      TargetGrows(b1, d, txn, todo[1..]);
      assert EntityOf(d, todo[0]) in b1.target;
    } else {
      assert !Taken(b1.target, d, todo[k]);
      FreeRowCommits(b1, d, txn, todo[1..], k - 1);
    }
  }
}
