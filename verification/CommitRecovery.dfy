/** Crash and restart with one process alive at a time, in both modes: the exact
    status of every row after every step, and convergence of the next full run. */
module CommitRecovery {
  import opened Wrappers
  import opened StagedRows
  import opened JobStore
  import opened CommitEngine
  import opened CommitProtocol
  import opened CommitSafety

  /** A process starts only when no other is alive. */
  ghost predicate Sequential(es: seq<Event>) {
    forall e :: e in es ==> !e.Start?
  }

  function RefusalOf(cfg: Config, b: Row): string {
    if Accepts(cfg.d, b) then "" else cfg.d.reject(b.mappedFields).value.message
  }

  /** `b` is the staged row, `r` the row now. Only `committing` leaves open whether
      the entity was written, and only the transaction-free mode uses it. */
  ghost predicate RowState(cfg: Config, b: Row, r: Row, written: bool) {
    if !Mine(b, cfg.job) then r == b
    else match r.commit
      case Pending => r == b && !written
      case Committing => r == b.(commit := Committing) && !cfg.txn
      case Committed =>
        && written && Accepts(cfg.d, b)
        && (r == Patched(b, Commit(cfg.d.refOf(b.id))) || (r == Patched(b, CommitAgain) && !cfg.txn))
      case Failed => !written && !Accepts(cfg.d, b) && r == Patched(b, Fail(RefusalOf(cfg, b)))
      case Skipped => false
  }

  ghost predicate RowStates(base: seq<Row>, cfg: Config, rows: seq<Row>, written: set<nat>) {
    |rows| == |base| && forall i :: 0 <= i < |base| ==> RowState(cfg, base[i], rows[i], i in written)
  }

  /** What the row of the record in hand looks like in the store. */
  function InHand(cfg: Config, r: Row): Row {
    if cfg.txn then r else Patched(r, Reserve)
  }

  ghost predicate OutcomeState(cfg: Config, r: Row, out: Outcome, written: set<nat>) {
    if !Accepts(cfg.d, r) then
      out == Threw(cfg.d.reject(r.mappedFields).value)
    else
      && !cfg.txn && r.id in written
      && (out == Written(cfg.d.refOf(r.id)) || (out == Threw(DUPLICATE_KEY) && r.commit.Committing?))
  }

  ghost predicate WorkerState(base: seq<Row>, cfg: Config, s: System, w: Worker) {
    && |s.rows| == |base|
    && (forall k :: 0 <= k < |w.todo| ==> RecordOk(base, cfg, w.todo[k]))
    && (forall k, l :: 0 <= k < l < |w.todo| ==> w.todo[k].id != w.todo[l].id)
    && (forall k :: 0 <= k < |w.todo| && (k > 0 || w.pc.Top?) ==> s.rows[w.todo[k].id] == w.todo[k])
    && (w.pc.Reserved? ==> w.todo != [] && !cfg.txn && s.rows[w.todo[0].id] == InHand(cfg, w.todo[0])
                           && (w.todo[0].commit.Pending? ==> w.todo[0].id !in s.written))
    && (w.pc.Called? ==> w.todo != [] && s.rows[w.todo[0].id] == InHand(cfg, w.todo[0])
                         && OutcomeState(cfg, w.todo[0], w.pc.outcome, s.written))
    && (w.pc.Finished? ==> w.todo == [])
    && (w.full ==> AllInTodo(s.rows, cfg.job, w.todo))
  }

  ghost predicate AllInTodo(rows: seq<Row>, job: nat, todo: seq<Row>) {
    forall i :: 0 <= i < |rows| && Eligible(rows[i], job) ==> exists k :: 0 <= k < |todo| && todo[k].id == i
  }

  function Last(s: System): Worker
    requires s.workers != []
  {
    s.workers[|s.workers| - 1]
  }

  ghost predicate SeqInv(base: seq<Row>, init: multiset<Entity>, cfg: Config, s: System) {
    && Sound(base, init, cfg)
    && TargetOk(base, init, cfg, s.target, s.written)
    && RowStates(base, cfg, s.rows, s.written)
    && (forall k :: 0 <= k < |s.workers| - 1 ==> !Live(s.workers[k]))
    && (s.workers != [] && !Last(s).pc.Dead? ==> WorkerState(base, cfg, s, Last(s)))
  }

  lemma RestartState(base: seq<Row>, init: multiset<Entity>, cfg: Config, s: System, limit: Option<nat>)
    requires SeqInv(base, init, cfg, s)
    ensures WorkerState(base, cfg, s, NewWorker(s, cfg, limit))
  {
    forall i | 0 <= i < |base| ensures SameContent(s.rows[i], base[i]) {
      assert RowState(cfg, base[i], s.rows[i], i in s.written);
    }
    StillStaged(base, cfg, s.rows);
    var todo := Snapshot(s.rows, cfg.job, limit);
    SnapshotSpec(s.rows, cfg.job);
    forall k | 0 <= k < |todo| ensures RecordOk(base, cfg, todo[k]) && s.rows[todo[k].id] == todo[k] {
      SnapshotLimited(s.rows, cfg.job, limit, todo[k]);
      var i :| 0 <= i < |s.rows| && s.rows[i] == todo[k];
    }
    if Below(|todo|, limit) {
      forall i | 0 <= i < |base| && Eligible(s.rows[i], cfg.job)
        ensures exists k :: 0 <= k < |todo| && todo[k].id == i
      {
        SnapshotLimited(s.rows, cfg.job, limit, s.rows[i]);
        var k :| 0 <= k < |todo| && todo[k] == s.rows[i];
      }
    }
  }

  lemma WriteState(base: seq<Row>, init: multiset<Entity>, cfg: Config, s: System, w: nat)
    requires SeqInv(base, init, cfg, s) && w == |s.workers| - 1
    requires s.workers[w].pc.Reserved?
    ensures SeqInv(base, init, cfg, WriteStep(s, cfg, w))
  {
    var r := s.workers[w].todo[0];
    assert RecordOk(base, cfg, r) && RowState(cfg, base[r.id], s.rows[r.id], r.id in s.written);
    WriteOutcome(base, init, cfg, s.target, s.written, r);
    var s1 := WriteStep(s, cfg, w);
    forall i | 0 <= i < |base| ensures RowState(cfg, base[i], s1.rows[i], i in s1.written) {
      assert RowState(cfg, base[i], s.rows[i], i in s.written);
    }
  }

  lemma PatchState(base: seq<Row>, cfg: Config, rows: seq<Row>, written: set<nat>, r: Row, p: Patch)
    requires RowStates(base, cfg, rows, written) && RecordOk(base, cfg, r)
    requires r == base[r.id] || r == base[r.id].(commit := Committing)
    requires rows[r.id] == r || rows[r.id] == Patched(r, Reserve)
    requires p.Reserve? ==> !cfg.txn
    requires p.Commit? ==> p.ref == cfg.d.refOf(r.id)
    requires p.CommitAgain? ==> !cfg.txn
    requires p.Commit? || p.CommitAgain? ==> Accepts(cfg.d, r) && r.id in written
    requires p.Fail? ==> !Accepts(cfg.d, r) && r.id !in written && p.message == RefusalOf(cfg, base[r.id])
    ensures RowStates(base, cfg, Update(rows, r.id, p), written)
  {
    forall i | 0 <= i < |base| ensures RowState(cfg, base[i], Update(rows, r.id, p)[i], i in written) {
      assert RowState(cfg, base[i], rows[i], i in written);
    }
  }

  /** The record in hand carries the content and, but for a reservation, the state
      of the staged row. */
  lemma HandState(base: seq<Row>, init: multiset<Entity>, cfg: Config, s: System, w: nat)
    requires SeqInv(base, init, cfg, s) && w == |s.workers| - 1 && Live(s.workers[w])
    requires s.workers[w].todo != []
    ensures var r := s.workers[w].todo[0];
      && RecordOk(base, cfg, r) && |s.rows| == |base|
      && (r == base[r.id] || r == base[r.id].(commit := Committing))
      && (s.workers[w].pc.Top? && r.commit.Pending? ==> r.id !in s.written)
      && (r.commit.Committing? ==> !cfg.txn)
  {
    var r := s.workers[w].todo[0];
    assert RecordOk(base, cfg, r);
    assert RowState(cfg, base[r.id], s.rows[r.id], r.id in s.written);
  }

  lemma ReserveState(base: seq<Row>, init: multiset<Entity>, cfg: Config, s: System, w: nat)
    requires SeqInv(base, init, cfg, s) && w == |s.workers| - 1 && !cfg.txn
    requires s.workers[w].pc.Top? && s.workers[w].todo != []
    ensures SeqInv(base, init, cfg, WorkerStep(s, cfg, w))
  {
    HandState(base, init, cfg, s, w);
    var me := s.workers[w];
    PatchState(base, cfg, s.rows, s.written, me.todo[0], Reserve);
    var s1 := WorkerStep(s, cfg, w);
    forall i | 0 <= i < |base| && Eligible(s1.rows[i], cfg.job) && me.full
      ensures exists k :: 0 <= k < |me.todo| && me.todo[k].id == i
    {
      if i == me.todo[0].id {
      } else {
        assert Eligible(s.rows[i], cfg.job);
      }
    }
  }

  /** The status update, from any state in which the outcome is already known. */
  lemma CloseState(base: seq<Row>, init: multiset<Entity>, cfg: Config, s: System, w: nat, p: Patch)
    requires SeqInv(base, init, cfg, s) && w == |s.workers| - 1
    requires s.workers[w].pc.Called? && p == Closing(s.workers[w].pc.outcome, s.workers[w].todo[0], cfg.txn)
    ensures SeqInv(base, init, cfg, CloseStep(s, cfg, w, s.workers[w].pc.outcome))
  {
    HandState(base, init, cfg, s, w);
    var me := s.workers[w];
    var r := me.todo[0];
    assert RowState(cfg, base[r.id], s.rows[r.id], r.id in s.written);
    PatchState(base, cfg, s.rows, s.written, r, p);
    var s1 := CloseStep(s, cfg, w, me.pc.outcome);
    PopTodo(s.rows, cfg.job, me.todo, s1.rows, me.full);
    assert WorkerState(base, cfg, s1, s1.workers[w]);
  }

  lemma PopTodo(rows: seq<Row>, job: nat, todo: seq<Row>, rows': seq<Row>, full: bool)
    requires todo != [] && |rows'| == |rows| && todo[0].id < |rows|
    requires rows' == rows[todo[0].id := rows'[todo[0].id]] && !Eligible(rows'[todo[0].id], job)
    ensures full && AllInTodo(rows, job, todo) ==> AllInTodo(rows', job, todo[1..])
  {
    if full && AllInTodo(rows, job, todo) {
      forall i | 0 <= i < |rows'| && Eligible(rows'[i], job)
        ensures exists k :: 0 <= k < |todo[1..]| && todo[1..][k].id == i
      {
        assert Eligible(rows[i], job);
        var k :| 0 <= k < |todo| && todo[k].id == i;
        assert todo[1..][k - 1] == todo[k];
      }
    }
  }

  /** A transaction that the target accepts: written and flipped in one step. */
  lemma TransactionWritten(base: seq<Row>, init: multiset<Entity>, cfg: Config, s: System, w: nat)
    requires SeqInv(base, init, cfg, s) && w == |s.workers| - 1 && cfg.txn
    requires s.workers[w].pc.Top? && s.workers[w].todo != [] && Accepts(cfg.d, s.workers[w].todo[0])
    ensures SeqInv(base, init, cfg, WorkerStep(s, cfg, w))
  {
    HandState(base, init, cfg, s, w);
    var me := s.workers[w];
    var r := me.todo[0];
    WriteOutcome(base, init, cfg, s.target, s.written, r);
    var s1 := WorkerStep(s, cfg, w);
    assert s1.written == s.written + {r.id};
    assert s1.rows == s.rows[r.id := Patched(s.rows[r.id], Commit(cfg.d.refOf(r.id)))];
    forall i | 0 <= i < |base| ensures RowState(cfg, base[i], s1.rows[i], i in s1.written) {
      assert RowState(cfg, base[i], s.rows[i], i in s.written);
    }
    PopTodo(s.rows, cfg.job, me.todo, s1.rows, me.full);
    assert WorkerState(base, cfg, s1, s1.workers[w]);
  }

  /** One that it refuses leaves only the status update to come. */
  lemma TransactionRefused(base: seq<Row>, init: multiset<Entity>, cfg: Config, s: System, w: nat)
    requires SeqInv(base, init, cfg, s) && w == |s.workers| - 1 && cfg.txn
    requires s.workers[w].pc.Top? && s.workers[w].todo != [] && !Accepts(cfg.d, s.workers[w].todo[0])
    ensures SeqInv(base, init, cfg, WorkerStep(s, cfg, w))
  {
    HandState(base, init, cfg, s, w);
    var s1 := WorkerStep(s, cfg, w);
    assert s1.rows == s.rows && s1.target == s.target && s1.written == s.written;
    assert WorkerState(base, cfg, s1, s1.workers[w]);
  }

  lemma StepState(base: seq<Row>, init: multiset<Entity>, cfg: Config, s: System, w: nat)
    requires SeqInv(base, init, cfg, s) && w < |s.workers| && Live(s.workers[w])
    ensures SeqInv(base, init, cfg, WorkerStep(s, cfg, w))
  {
    assert w == |s.workers| - 1;
    if s.workers[w].todo != [] {
      match s.workers[w].pc
      case Top =>
        if !cfg.txn {
          ReserveState(base, init, cfg, s, w);
        } else if Accepts(cfg.d, s.workers[w].todo[0]) {
          TransactionWritten(base, init, cfg, s, w);
        } else {
          TransactionRefused(base, init, cfg, s, w);
        }
      case Reserved => WriteState(base, init, cfg, s, w);
      case Called(out) => CloseState(base, init, cfg, s, w, Closing(out, s.workers[w].todo[0], cfg.txn));
    }
  }

  lemma NextState(base: seq<Row>, init: multiset<Entity>, cfg: Config, s: System, e: Event)
    requires SeqInv(base, init, cfg, s) && !e.Start?
    ensures SeqInv(base, init, cfg, Next(s, cfg, e))
  {
    match e
    case Restart(limit) => RestartState(base, init, cfg, s, limit);
    case Crash(w) =>
    case Step(w) =>
      if w < |s.workers| && Live(s.workers[w]) { StepState(base, init, cfg, s, w); }
  }

  lemma {:induction false} ExecState(base: seq<Row>, init: multiset<Entity>, cfg: Config, es: seq<Event>)
    requires Sound(base, init, cfg) && Sequential(es)
    ensures SeqInv(base, init, cfg, Exec(Initial(base, init), cfg, es))
  {
    if es == [] {
      NoEntities(base, cfg.d);
    } else {
      var n := |es| - 1;
      ExecState(base, init, cfg, es[..n]);
      NextState(base, init, cfg, Exec(Initial(base, init), cfg, es[..n]), es[n]);
    }
  }
}
