/** What a job's status says after a crash: totals restart at zero, so a resumed run
    counts the rows that were done before as skipped. */
module CommitResume {
  import opened Wrappers
  import opened StagedRows
  import opened CommitEngine
  import opened CommitProtocol
  import opened CommitSafety
  import opened CommitRecovery
  import opened CommitConvergence
  import opened CommitNecessity
  import opened CommitWorker
  import opened ImportJobs

  /** A settled import leaves the next run nothing to do. */
  lemma NothingLeft(base: seq<Row>, init: multiset<Entity>, cfg: Config, b: Batch)
    requires Staged(base, cfg) && Settled(base, init, cfg, b)
    ensures RunBatch(b.rows, b.target, cfg.d, cfg.txn, cfg.job, None) == Batch(b.rows, b.target, 0, 0)
    ensures forall i :: 0 <= i < |base| && Good(cfg, base[i]) ==> b.rows[i].commit.Committed?
  {
    forall i | 0 <= i < |base|
      ensures SameContent(b.rows[i], base[i]) && (Good(cfg, base[i]) ==> b.rows[i].commit.Committed?)
    {
      assert RowState(cfg, base[i], b.rows[i], i in AcceptedRows(base, cfg));
    }
    StillStaged(base, cfg, b.rows);
    SomethingEligible(b.rows, cfg.job);
  }

  /** A worker that dies between its last row and the status of the job: the next one
      finds nothing to do and reports errors, though no row has failed in it and every
      row the target takes is committed. */
  lemma ResumeReportsErrors(base: seq<Row>, init: multiset<Entity>, cfg: Config) returns (es: seq<Event>)
    requires Sound(base, init, cfg) && CountMine(base, cfg.job) > 0
    ensures Sequential(es)
    ensures var b := NextRun(base, init, cfg, es);
      && b.committed == 0 && b.failed == 0
      && FinalStatus(b.failed, SkippedRows(CountMine(base, cfg.job), b.committed, b.failed)) == CompletedWithErrors
      && |b.rows| == |base|
      && forall i :: 0 <= i < |base| && Good(cfg, base[i]) ==> b.rows[i].commit.Committed?
  {
    es := FullRun(base, init, cfg, []);
    var s := Exec(Initial(base, init), cfg, es);
    FinishedScheduleSettles(base, init, cfg, es);
    NothingLeft(base, init, cfg, BatchOf(s, |s.workers| - 1));
    assert NextRun(base, init, cfg, es) == Batch(s.rows, s.target, 0, 0);
  }
}
