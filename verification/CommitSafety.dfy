/** What holds under every interleaving of any number of commit runs, crashes
    included, with or without transactions. */
module CommitSafety {
  import opened Wrappers
  import opened StagedRows
  import opened JobStore
  import opened CommitEngine
  import opened CommitProtocol

  /** What overlapping runs need: a unique index that stops a second write, and good
      rows that are not in its way to begin with. */
  ghost predicate Guarded(base: seq<Row>, init: multiset<Entity>, cfg: Config) {
    Staged(base, cfg) && RoomForAll(base, init, cfg) && StopsSecondWrite(base, cfg)
  }

  ghost predicate RowOk(cfg: Config, b: Row, r: Row, written: bool) {
    && SameContent(r, b)
    && (!Mine(b, cfg.job) ==> r == b)
    && (Mine(b, cfg.job) ==>
          && !r.commit.Skipped?
          && (r.commit.Committed? ==> written || (!cfg.txn && Lookalike(cfg, b)))
          && (r.commit.Failed? && Accepts(cfg.d, b) ==> written))
  }

  ghost predicate RecordOk(base: seq<Row>, cfg: Config, r: Row) {
    r.id < |base| && SameContent(r, base[r.id]) && Eligible(r, cfg.job)
  }

  ghost predicate OutcomeOk(cfg: Config, r: Row, out: Outcome, written: set<nat>) {
    if Accepts(cfg.d, r) then r.id in written
    else out == Threw(cfg.d.reject(r.mappedFields).value)
  }

  /** No good row has slipped past the worker. */
  ghost predicate Covers(base: seq<Row>, cfg: Config, written: set<nat>, todo: seq<Row>) {
    forall i :: 0 <= i < |base| && Good(cfg, base[i])
      ==> i in written || exists k :: 0 <= k < |todo| && todo[k].id == i
  }

  ghost predicate WorkerOk(base: seq<Row>, cfg: Config, written: set<nat>, w: Worker) {
    && (forall k :: 0 <= k < |w.todo| ==> RecordOk(base, cfg, w.todo[k]))
    && (w.pc.Finished? ==> w.todo == [])
    && (w.pc.Reserved? || w.pc.Called? ==> w.todo != [])
    && (w.pc.Called? ==> OutcomeOk(cfg, w.todo[0], w.pc.outcome, written))
    && (w.full && !w.pc.Dead? ==> Covers(base, cfg, written, w.todo))
  }

  ghost predicate RowsOk(base: seq<Row>, cfg: Config, rows: seq<Row>, written: set<nat>) {
    |rows| == |base| && forall i :: 0 <= i < |base| ==> RowOk(cfg, base[i], rows[i], i in written)
  }

  ghost predicate Inv(base: seq<Row>, init: multiset<Entity>, cfg: Config, s: System) {
    && Guarded(base, init, cfg)
    && TargetOk(base, init, cfg, s.target, s.written)
    && RowsOk(base, cfg, s.rows, s.written)
    && forall k :: 0 <= k < |s.workers| ==> WorkerOk(base, cfg, s.written, s.workers[k])
  }

  /** Content never changes, so neither do addresses and indexes. */
  lemma StillStaged(base: seq<Row>, cfg: Config, rows: seq<Row>)
    requires Staged(base, cfg) && |rows| == |base|
    requires forall i :: 0 <= i < |base| ==> SameContent(rows[i], base[i])
    ensures Addressed(rows) && UniqueRowIndex(rows, cfg.job)
  {
  }

  lemma SnapshotLimited(rows: seq<Row>, job: nat, limit: Option<nat>, r: Row)
    requires UniqueRowIndex(rows, job)
    ensures r in Snapshot(rows, job, limit) ==> r in rows && Eligible(r, job)
    ensures Below(|Snapshot(rows, job, limit)|, limit) ==>
      r in rows && Eligible(r, job) ==> r in Snapshot(rows, job, limit)
  {
    SnapshotSpec(rows, job);
    assert r in Snapshot(rows, job, limit) ==> r in Snapshot(rows, job, None);
  }

  lemma StartOk(base: seq<Row>, init: multiset<Entity>, cfg: Config, s: System, limit: Option<nat>)
    requires Inv(base, init, cfg, s)
    ensures WorkerOk(base, cfg, s.written, NewWorker(s, cfg, limit))
  {
    StillStaged(base, cfg, s.rows);
    var todo := Snapshot(s.rows, cfg.job, limit);
    forall k | 0 <= k < |todo| ensures RecordOk(base, cfg, todo[k]) {
      SnapshotLimited(s.rows, cfg.job, limit, todo[k]);
      var i :| 0 <= i < |s.rows| && s.rows[i] == todo[k];
    }
    if Below(|todo|, limit) {
      forall i | 0 <= i < |base| && Good(cfg, base[i]) && i !in s.written
        ensures exists k :: 0 <= k < |todo| && todo[k].id == i
      {
        assert RowOk(cfg, base[i], s.rows[i], false);
        SnapshotLimited(s.rows, cfg.job, limit, s.rows[i]);
        var k :| 0 <= k < |todo| && todo[k] == s.rows[i];
      }
    }
  }

  lemma WriteOk(base: seq<Row>, init: multiset<Entity>, cfg: Config, s: System, w: nat)
    requires Inv(base, init, cfg, s)
    requires w < |s.workers| && Live(s.workers[w]) && s.workers[w].todo != []
    ensures Inv(base, init, cfg, WriteStep(s, cfg, w))
  {
    var r := s.workers[w].todo[0];
    assert RecordOk(base, cfg, r);
    WriteOutcome(base, init, cfg, s.target, s.written, r);
    var s1 := WriteStep(s, cfg, w);
    assert s.written <= s1.written;
    assert RowsOk(base, cfg, s1.rows, s1.written) by {
      forall i | 0 <= i < |base| ensures RowOk(cfg, base[i], s1.rows[i], i in s1.written) {
        assert RowOk(cfg, base[i], s.rows[i], i in s.written);
      }
    }
    forall k | 0 <= k < |s.workers| ensures WorkerOk(base, cfg, s1.written, s1.workers[k]) {
      assert WorkerOk(base, cfg, s.written, s.workers[k]);
    }
  }

  lemma PatchOk(base: seq<Row>, cfg: Config, rows: seq<Row>, written: set<nat>, id: nat, p: Patch)
    requires RowsOk(base, cfg, rows, written) && id < |base| && Mine(base[id], cfg.job)
    requires p.Commit? || p.CommitAgain? ==> id in written || (!cfg.txn && Lookalike(cfg, base[id]))
    requires p.Fail? && Accepts(cfg.d, base[id]) ==> id in written
    ensures RowsOk(base, cfg, Update(rows, id, p), written)
  {
    forall i | 0 <= i < |base| ensures RowOk(cfg, base[i], Update(rows, id, p)[i], i in written) {
      assert RowOk(cfg, base[i], rows[i], i in written);
    }
  }

  lemma CloseOk(base: seq<Row>, init: multiset<Entity>, cfg: Config, s: System, w: nat)
    requires Inv(base, init, cfg, s)
    requires w < |s.workers| && s.workers[w].pc.Called?
    ensures Inv(base, init, cfg, CloseStep(s, cfg, w, s.workers[w].pc.outcome))
  {
    var me := s.workers[w];
    var r, out := me.todo[0], me.pc.outcome;
    assert WorkerOk(base, cfg, s.written, me) && RecordOk(base, cfg, r);
    PatchOk(base, cfg, s.rows, s.written, r.id, Closing(out, r, cfg.txn));
    var s1 := CloseStep(s, cfg, w, out);
    assert WorkerOk(base, cfg, s.written, s1.workers[w]) by {
      if me.full {
        forall i | 0 <= i < |base| && Good(cfg, base[i]) && i !in s.written
          ensures exists k :: 0 <= k < |me.todo[1..]| && me.todo[1..][k].id == i
        {
          var k :| 0 <= k < |me.todo| && me.todo[k].id == i;
          assert me.todo[1..][k - 1] == me.todo[k];
        }
      }
    }
  }

  lemma NextOk(base: seq<Row>, init: multiset<Entity>, cfg: Config, s: System, e: Event)
    requires Inv(base, init, cfg, s)
    ensures Inv(base, init, cfg, Next(s, cfg, e))
  {
    match e
    case Start(limit) => StartOk(base, init, cfg, s, limit);
    case Restart(limit) => StartOk(base, init, cfg, s, limit);
    case Crash(w) =>
    case Step(w) =>
      if w < |s.workers| && Live(s.workers[w]) {
        assert WorkerOk(base, cfg, s.written, s.workers[w]);
        if s.workers[w].todo != [] {
          match s.workers[w].pc
          case Top =>
            var r := s.workers[w].todo[0];
            assert RecordOk(base, cfg, r);
            if cfg.txn {
              WriteOk(base, init, cfg, s, w);
              if CommitRow(s.target, cfg.d, r).0.Written? { CloseOk(base, init, cfg, WriteStep(s, cfg, w), w); }
            } else {
              PatchOk(base, cfg, s.rows, s.written, r.id, Reserve);
            }
          case Reserved => WriteOk(base, init, cfg, s, w);
          case Called(_) => CloseOk(base, init, cfg, s, w);
        }
      }
  }

  lemma {:induction false} ExecOk(base: seq<Row>, init: multiset<Entity>, cfg: Config, es: seq<Event>)
    requires Guarded(base, init, cfg)
    ensures Inv(base, init, cfg, Exec(Initial(base, init), cfg, es))
  {
    if es == [] {
      assert init + EntitiesOf(base, cfg.d, {}) == init by { NoEntities(base, cfg.d); }
    } else {
      var n := |es| - 1;
      ExecOk(base, init, cfg, es[..n]);
      NextOk(base, init, cfg, Exec(Initial(base, init), cfg, es[..n]), es[n]);
    }
  }

  /** The rows whose write the target accepts. */
  ghost function AcceptedRows(base: seq<Row>, cfg: Config): set<nat> {
    set i: nat | i < |base| && Good(cfg, base[i])
  }

  /** Some run over every row that was eligible has come to its end. */
  ghost predicate HasCompleteRun(s: System) {
    exists k :: 0 <= k < |s.workers| && s.workers[k].full && s.workers[k].pc.Finished?
  }

  /** What the final statuses of row `i` say about its write, under any overlap. */
  ghost predicate EndsTellWrite(cfg: Config, b: Row, s: System, i: nat)
    requires i < |s.rows|
  {
    && !s.rows[i].commit.Skipped?
    && (s.rows[i].commit.Committed? && (cfg.txn || !Lookalike(cfg, b)) ==>
          i in s.written && EntityOf(cfg.d, b) in s.target)
    && (s.rows[i].commit.Failed? && Accepts(cfg.d, b) ==> i in s.written && EntityOf(cfg.d, b) in s.target)
  }

  /** Whatever runs, however it is interleaved and wherever it dies: a row marked
      committed has its entity, unless its refusal was mistaken for a duplicate key;
      so has a row marked failed that the target accepts. The target is the initial
      one plus at most one entity for each accepted row, and exactly one for each as
      soon as any run without a limit, or any chunk that came back short, has ended. */
  lemma InterleavedRunsAreSafe(base: seq<Row>, init: multiset<Entity>, cfg: Config, es: seq<Event>)
    requires Guarded(base, init, cfg)
    ensures var s := Exec(Initial(base, init), cfg, es);
      && |s.rows| == |base|
      && (forall i :: 0 <= i < |base| && Mine(base[i], cfg.job) ==> EndsTellWrite(cfg, base[i], s, i))
      && s.written <= AcceptedRows(base, cfg)
      && s.target == init + EntitiesOf(base, cfg.d, s.written)
      && (HasCompleteRun(s) ==> s.target == init + EntitiesOf(base, cfg.d, AcceptedRows(base, cfg)))
  {
    ExecOk(base, init, cfg, es);
    var s := Exec(Initial(base, init), cfg, es);
    forall i | 0 <= i < |base| && Mine(base[i], cfg.job) ensures EndsTellWrite(cfg, base[i], s, i) {
      assert RowOk(cfg, base[i], s.rows[i], i in s.written);
      EntitiesHave(base, cfg.d, s.written, EntityOf(cfg.d, base[i]));
    }
    if HasCompleteRun(s) {
      var k :| 0 <= k < |s.workers| && s.workers[k].full && s.workers[k].pc.Finished?;
      assert WorkerOk(base, cfg, s.written, s.workers[k]);
      assert s.written == AcceptedRows(base, cfg);
    }
  }
}
