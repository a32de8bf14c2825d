/** The worker around the engine: chunks of 200 rows until one comes back short,
    running totals, and the job's final status. */
module CommitWorker {
  import opened Wrappers
  import opened StagedRows
  import opened JobStore
  import opened CommitEngine
  import opened CommitBatches
  import opened ImportJobs

  const CHUNK_SIZE := 200
  const SYNC_COMMIT_THRESHOLD := 200

  function SkippedRows(valid: nat, committed: nat, failed: nat): nat {
    if valid >= committed + failed then valid - committed - failed else 0
  }

  function FinalStatus(failed: nat, skipped: nat): JobStatus {
    if failed > 0 || skipped > 0 then CompletedWithErrors else Completed
  }

  /** Skipped are the valid rows in neither total; nothing failed and nothing skipped
      is complete, anything else complete with errors. */
  ghost predicate Accounted(valid: nat, committed: nat, failed: nat, skipped: nat, status: JobStatus) {
    && (valid >= committed + failed ==> committed + failed + skipped == valid)
    && (valid < committed + failed ==> skipped == 0)
    && status == if failed == 0 && skipped == 0 then Completed else CompletedWithErrors
  }

  // --------------------------------------------------------------- one chunk

  lemma RowsStayUnique(b: Batch, d: Descriptor, txn: bool, todo: seq<Row>, job: nat)
    requires Addressed(b.rows) && UniqueRowIndex(b.rows, job)
    ensures var rows := ProcessAll(b, d, txn, todo).rows; Addressed(rows) && UniqueRowIndex(rows, job)
  {
    ProcessedCounts(b, d, txn, todo);
    forall i | 0 <= i < |b.rows|
      ensures SameContent(ProcessAll(b, d, txn, todo).rows[i], b.rows[i])
    {
      ProcessedRow(b, d, txn, todo, i);
    }
  }

  /** An eligible row is either among the first `n` records of the snapshot or in the rest. */
  lemma SplitSnapshot(rows: seq<Row>, job: nat, n: nat, i: nat)
    requires Addressed(rows) && UniqueRowIndex(rows, job) && n <= |Snapshot(rows, job, None)|
    requires i < |rows| && Eligible(rows[i], job)
    ensures var all := Snapshot(rows, job, None); rows[i] in all[n..] <==> !InTodo(all[..n], i)
  {
    var all := Snapshot(rows, job, None);
    SnapshotSpec(rows, job);
    var j :| 0 <= j < |all| && all[j] == rows[i];
    if j < n {
      assert all[..n][j].id == i;
    } else {
      assert all[n..][j - n] == rows[i];
      forall k | 0 <= k < n ensures all[k].id != i {
        assert all[k] in all;
      }
    }
  }

  lemma SnapshotRow(rows: seq<Row>, job: nat, n: nat, r: Row)
    requires Addressed(rows) && UniqueRowIndex(rows, job) && n <= |Snapshot(rows, job, None)|
    requires r in Snapshot(rows, job, None)[n..]
    ensures r.id < |rows| && rows[r.id] == r && Eligible(r, job)
  {
    SnapshotSpec(rows, job);
    assert r in Snapshot(rows, job, None);
  }

  /** After the first `n` records of the snapshot, the next snapshot is the rest of it. */
  lemma SnapshotRest(b: Batch, d: Descriptor, txn: bool, job: nat, n: nat)
    requires Addressed(b.rows) && UniqueRowIndex(b.rows, job)
    requires n <= |Snapshot(b.rows, job, None)|
    ensures var all := Snapshot(b.rows, job, None);
      Snapshot(ProcessAll(b, d, txn, all[..n]).rows, job, None) == all[n..]
  {
    var all := Snapshot(b.rows, job, None);
    var rows := ProcessAll(b, d, txn, all[..n]).rows;
    RowsStayUnique(b, d, txn, all[..n], job);
    ProcessedCounts(b, d, txn, all[..n]);
    SnapshotSpec(b.rows, job);
    SnapshotSpec(rows, job);
    forall r ensures r in Snapshot(rows, job, None) <==> r in all[n..] {
      if r in all[n..] {
        SnapshotRow(b.rows, job, n, r);
        SplitSnapshot(b.rows, job, n, r.id);
        ProcessedRow(b, d, txn, all[..n], r.id);
      } else if r in rows && Eligible(r, job) {
        var i :| 0 <= i < |rows| && rows[i] == r;
        ProcessedRow(b, d, txn, all[..n], i);
        SplitSnapshot(b.rows, job, n, i);
      }
    }
    SortedUnique(Snapshot(rows, job, None), all[n..]);
  }

  /** What is still to come: one unlimited run from here. */
  ghost function Remaining(b: Batch, d: Descriptor, txn: bool, job: nat): Batch {
    ProcessAll(b, d, txn, Snapshot(b.rows, job, None))
  }

  /** A chunk is a beginning of the unlimited run, and the next run takes up its rest. */
  lemma ChunkIsPrefix(b: Batch, d: Descriptor, txn: bool, job: nat, k: nat)
    requires Addressed(b.rows) && UniqueRowIndex(b.rows, job) && k <= |Snapshot(b.rows, job, None)|
    ensures var all := Snapshot(b.rows, job, None); var b' := ProcessAll(b, d, txn, all[..k]);
      && Addressed(b'.rows) && UniqueRowIndex(b'.rows, job)
      && Snapshot(b'.rows, job, None) == all[k..]
      && Remaining(b', d, txn, job) == Remaining(b, d, txn, job)
  {
    var all := Snapshot(b.rows, job, None);
    RowsStayUnique(b, d, txn, all[..k], job);
    SnapshotRest(b, d, txn, job, k);
    ProcessAppend(b, d, txn, all[..k], all[k..]);
    assert all[..k] + all[k..] == all;
  }

  lemma OneChunk(b: Batch, d: Descriptor, txn: bool, job: nat, n: nat)
    requires Addressed(b.rows) && UniqueRowIndex(b.rows, job) && n > 0
    ensures var c := RunBatch(b.rows, b.target, d, txn, job, Some(n));
      var b' := Plus(c, b.committed, b.failed);
      && Addressed(b'.rows) && UniqueRowIndex(b'.rows, job)
      && Remaining(b', d, txn, job) == Remaining(b, d, txn, job)
      && c.committed + c.failed == |Snapshot(b.rows, job, Some(n))|
      && |Snapshot(b'.rows, job, None)| == |Snapshot(b.rows, job, None)| - |Snapshot(b.rows, job, Some(n))|
  {
    var all := Snapshot(b.rows, job, None);
    var chunk := Snapshot(b.rows, job, Some(n));
    assert chunk == all[..|chunk|];
    var zero := Batch(b.rows, b.target, 0, 0);
    ProcessPlus(zero, d, txn, chunk, b.committed, b.failed);
    assert Plus(zero, b.committed, b.failed) == b;
    ProcessedCounts(zero, d, txn, chunk);
    ChunkIsPrefix(b, d, txn, job, |chunk|);
  }

  // ------------------------------------------------------------------ totals

  /** Every valid row was still to do before the run, and is committed after it. */
  ghost predicate AllCommittedNow(rows: seq<Row>, job: nat, after: seq<Row>) {
    && |after| == |rows|
    && forall i :: 0 <= i < |rows| && Mine(rows[i], job) ==> Eligible(rows[i], job) && after[i].commit.Committed?
  }

  /** In every run, first or resumed: committed, failed and skipped add up to the
      valid rows. The status is `completed` if and only if every valid row was still
      to do and is now committed; so a resumed run that finishes the rest of an
      import reports errors, since its totals restart at zero. */
  lemma TotalsAccount(rows: seq<Row>, target: multiset<Entity>, d: Descriptor, txn: bool, job: nat, valid: nat)
    requires Addressed(rows) && UniqueRowIndex(rows, job) && valid == CountMine(rows, job)
    ensures var b := RunBatch(rows, target, d, txn, job, None);
      var skipped := SkippedRows(valid, b.committed, b.failed);
      && b.committed + b.failed + skipped == valid
      && FinalStatus(b.failed, skipped)
         == if AllCommittedNow(rows, job, b.rows) then Completed else CompletedWithErrors
  {
    var todo := Snapshot(rows, job, None);
    SnapshotSpec(rows, job);
    SnapshotRecords(rows, job);
    var zero := Batch(rows, target, 0, 0);
    ProcessedCounts(zero, d, txn, todo);
    EligiblesAmongMine(rows, job);
    var b := RunBatch(rows, target, d, txn, job, None);
    FailureShows(zero, d, txn, todo);
    if FinalStatus(b.failed, SkippedRows(valid, b.committed, b.failed)).Completed? {
      forall i | 0 <= i < |rows| && Mine(rows[i], job) ensures b.rows[i].commit.Committed? {
        assert rows[i] in todo;
        var k :| 0 <= k < |todo| && todo[k] == rows[i];
        assert InTodo(todo, i);
        ProcessedRow(zero, d, txn, todo, i);
      }
    }
  }

  lemma NoneLeft(rows: seq<Row>, job: nat)
    requires UniqueRowIndex(rows, job) && Snapshot(rows, job, None) == []
    ensures forall r :: r in rows ==> !Eligible(r, job)
  {
    SnapshotSpec(rows, job);
  }

  // --------------------------------------------------------------- the methods

  /** One turn of the worker's loop. */
  method ProcessChunk(store: Store, target: Target, d: Descriptor, supported: bool, job: nat,
                      totalCommitted: nat, totalFailed: nat)
    returns (committed: nat, failed: nat, processed: nat)
    requires store.Valid() && UniqueRowIndex(store.rows, job)
    modifies store, target
    ensures store.Valid() && UniqueRowIndex(store.rows, job)
    ensures var txn := d.commitInTransaction && supported;
      Remaining(Batch(store.rows, target.entities, totalCommitted + committed, totalFailed + failed), d, txn, job)
      == Remaining(Batch(old(store.rows), old(target.entities), totalCommitted, totalFailed), d, txn, job)
    ensures |Snapshot(store.rows, job, None)| == |Snapshot(old(store.rows), job, None)| - processed
    ensures processed < CHUNK_SIZE ==> Snapshot(store.rows, job, None) == []
  {
    OneChunk(Batch(store.rows, target.entities, totalCommitted, totalFailed), d, UsesTransaction(d, supported),
             job, CHUNK_SIZE);
    committed, failed, processed := CommitBatch(store, target, d, supported, job, Some(CHUNK_SIZE));
  }

  /** The queue worker's job: chunk after chunk, with the totals written to the job
      document each time. The result is that of one unlimited batch. */
  method ProcessJob(store: Store, target: Target, d: Descriptor, supported: bool, importJob: ImportJob)
    returns (totalCommitted: nat, totalFailed: nat, finalStatus: JobStatus)
    requires store.Valid() && UniqueRowIndex(store.rows, importJob.id)
    modifies store, target, importJob
    ensures store.Valid()
    ensures Batch(store.rows, target.entities, totalCommitted, totalFailed)
         == RunBatch(old(store.rows), old(target.entities), d, d.commitInTransaction && supported, importJob.id, None)
    ensures forall r :: r in store.rows ==> !Eligible(r, importJob.id)
    ensures importJob.validRows == old(importJob.validRows)
    ensures importJob.committedRows == totalCommitted && importJob.commitFailedRows == totalFailed
    ensures Accounted(importJob.validRows, totalCommitted, totalFailed, importJob.skippedRows, finalStatus)
    ensures importJob.status == finalStatus
  {
    var job := importJob.id;
    ghost var txn := d.commitInTransaction && supported;
    ghost var final := RunBatch(store.rows, target.entities, d, txn, job, None);
    totalCommitted, totalFailed := 0, 0;
    var processed := CHUNK_SIZE;
    while processed >= CHUNK_SIZE
      invariant store.Valid() && UniqueRowIndex(store.rows, job)
      invariant importJob.validRows == old(importJob.validRows)
      invariant Remaining(Batch(store.rows, target.entities, totalCommitted, totalFailed), d, txn, job) == final
      invariant processed < CHUNK_SIZE ==> Snapshot(store.rows, job, None) == []
      decreases |Snapshot(store.rows, job, None)|, processed
    {
      var committed, failed;
      committed, failed, processed := ProcessChunk(store, target, d, supported, job, totalCommitted, totalFailed);
      totalCommitted := totalCommitted + committed;
      totalFailed := totalFailed + failed;
      importJob.committedRows, importJob.commitFailedRows := totalCommitted, totalFailed;
    }
    NoneLeft(store.rows, job);
    importJob.skippedRows := SkippedRows(importJob.validRows, totalCommitted, totalFailed);
    importJob.committedRows, importJob.commitFailedRows := totalCommitted, totalFailed;
    finalStatus := FinalStatus(totalFailed, importJob.skippedRows);
    importJob.status := finalStatus;
  }

  datatype CommitMode = Sync | Async

  /** The entry point: large imports are queued, small ones committed in the call. */
  method CommitImportJob(store: Store, target: Target, d: Descriptor, supported: bool, importJob: ImportJob)
    returns (mode: Result<CommitMode, JobStatus>)
    requires store.Valid()
    modifies store, target, importJob
    ensures store.Valid()
    ensures importJob.validRows == old(importJob.validRows)
    ensures mode != Ok(Sync) ==>
      && importJob.committedRows == old(importJob.committedRows)
      && importJob.commitFailedRows == old(importJob.commitFailedRows)
      && importJob.skippedRows == old(importJob.skippedRows)
    ensures !old(importJob.status).Validated? ==>
      && mode == Err(old(importJob.status)) && importJob.status == old(importJob.status)
      && store.rows == old(store.rows) && target.entities == old(target.entities)
    ensures old(importJob.status).Validated? && old(importJob.validRows) > 200 ==>
      && mode == Ok(Async) && importJob.status.CommittingStatus?
      && store.rows == old(store.rows) && target.entities == old(target.entities)
    ensures old(importJob.status).Validated? && old(importJob.validRows) <= 200 ==>
      && mode == Ok(Sync)
      && Batch(store.rows, target.entities, importJob.committedRows, importJob.commitFailedRows)
         == RunBatch(old(store.rows), old(target.entities), d, d.commitInTransaction && supported, importJob.id, None)
      && Accounted(importJob.validRows, importJob.committedRows, importJob.commitFailedRows, importJob.skippedRows,
                   importJob.status)
  {
    if importJob.status != Validated {
      return Err(importJob.status);
    }
    importJob.status := CommittingStatus;
    if importJob.validRows > SYNC_COMMIT_THRESHOLD {
      return Ok(Async);
    }
    var committed, failed, processed := CommitBatch(store, target, d, supported, importJob.id, None);
    var skipped := SkippedRows(importJob.validRows, committed, failed);
    importJob.status := FinalStatus(failed, skipped);
    importJob.committedRows, importJob.commitFailedRows, importJob.skippedRows := committed, failed, skipped;
    return Ok(Sync);
  }
}
