/** The transactional mode, one process at a time, for any staged import at all. */
module CommitTransactions {
  import opened Wrappers
  import opened StagedRows
  import opened CommitEngine
  import opened CommitProtocol
  import opened CommitSafety
  import opened CommitRecovery
  import opened CommitReach

  ghost function CommittedRows(rows: seq<Row>, job: nat): set<nat> {
    set i: nat | i < |rows| && Mine(rows[i], job) && rows[i].commit.Committed?
  }

  /** No row is reserved, and a row is written exactly if it is marked committed. */
  ghost predicate Flipped(base: seq<Row>, init: multiset<Entity>, cfg: Config, s: System) {
    && Weak(base, init, cfg, s)
    && (forall i :: 0 <= i < |base| && Mine(base[i], cfg.job) ==> !s.rows[i].commit.Committing?)
    && s.written == CommittedRows(s.rows, cfg.job)
    && s.target == init + EntitiesOf(base, cfg.d, s.written)
  }

  /** What the last worker still has to do is still pending. */
  ghost predicate StillPending(s: System, w: Worker) {
    && (forall k, l :: 0 <= k < l < |w.todo| ==> w.todo[k].id != w.todo[l].id)
    && (forall k :: 0 <= k < |w.todo| ==> w.todo[k].id < |s.rows| && s.rows[w.todo[k].id].commit.Pending?)
    && !w.pc.Reserved?
    && (w.pc.Called? ==> w.todo != [] && w.pc.outcome.Threw?)
  }

  ghost predicate TxnInv(base: seq<Row>, init: multiset<Entity>, cfg: Config, s: System) {
    && Flipped(base, init, cfg, s)
    && (forall k :: 0 <= k < |s.workers| - 1 ==> !Live(s.workers[k]))
    && (s.workers != [] && !Last(s).pc.Dead? ==> StillPending(s, Last(s)))
  }

  lemma RestartTxn(base: seq<Row>, init: multiset<Entity>, cfg: Config, s: System, limit: Option<nat>)
    requires Staged(base, cfg) && TxnInv(base, init, cfg, s)
    ensures TxnInv(base, init, cfg, Next(s, cfg, Restart(limit)))
  {
    NextWeak(base, init, cfg, s, Restart(limit));
    StillStaged(base, cfg, s.rows);
    SnapshotRecords(s.rows, cfg.job);
    var all := Snapshot(s.rows, cfg.job, None);
    var todo := Snapshot(s.rows, cfg.job, limit);
    assert todo <= all;
    forall k | 0 <= k < |todo| ensures todo[k].id < |s.rows| && s.rows[todo[k].id].commit.Pending? {
      assert todo[k] == all[k];
      assert SameContent(s.rows[all[k].id], base[all[k].id]);
    }
    assert StillPending(s, NewWorker(s, cfg, limit));
  }

  /** A row that was pending gets its final status, and its entity if that is committed. */
  lemma FlipOne(base: seq<Row>, init: multiset<Entity>, cfg: Config, s: System, s': System, r: Row)
    requires Flipped(base, init, cfg, s) && Weak(base, init, cfg, s') && RecordOk(base, cfg, r)
    requires s.rows[r.id].commit.Pending?
    requires s'.rows == s.rows[r.id := s'.rows[r.id]]
    requires || (s'.rows[r.id].commit.Failed? && s'.written == s.written && s'.target == s.target)
             || (s'.rows[r.id].commit.Committed? && s'.written == s.written + {r.id}
                 && s'.target == s.target + multiset{EntityOf(cfg.d, r)})
    ensures Flipped(base, init, cfg, s')
  {
    assert SameContent(s.rows[r.id], base[r.id]) && SameContent(s'.rows[r.id], base[r.id]);
    assert r.id !in s.written;
    if s'.rows[r.id].commit.Committed? {
      EntitiesAdd(base, cfg.d, s.written, r.id);
      assert EntityOf(cfg.d, r) == EntityOf(cfg.d, base[r.id]);
      assert CommittedRows(s'.rows, cfg.job) == CommittedRows(s.rows, cfg.job) + {r.id};
    } else {
      assert CommittedRows(s'.rows, cfg.job) == CommittedRows(s.rows, cfg.job);
    }
  }

  lemma PopPending(s: System, s': System, w: Worker, w': Worker)
    requires StillPending(s, w) && w.todo != [] && w'.todo == w.todo[1..] && w'.pc.Top?
    requires |s'.rows| == |s.rows| && s'.rows == s.rows[w.todo[0].id := s'.rows[w.todo[0].id]]
    ensures StillPending(s', w')
  {
  }

  /** The last worker puts row `r` down: written and flipped at once, or marked failed. */
  lemma DoneShape(s: System, cfg: Config, r: Row)
    requires cfg.txn && s.workers != [] && StillPending(s, Last(s)) && Live(Last(s))
    requires Last(s).todo != [] && Last(s).todo[0] == r
    requires Last(s).pc.Called? || CommitRow(s.target, cfg.d, r).0.Written?
    ensures var w := |s.workers| - 1; var s' := WorkerStep(s, cfg, w);
      && |s'.rows| == |s.rows| && s'.rows == s.rows[r.id := s'.rows[r.id]]
      && |s'.workers| == |s.workers| && s'.workers[..w] == s.workers[..w]
      && s'.workers[w].todo == Last(s).todo[1..] && s'.workers[w].pc.Top?
      && ((s'.rows[r.id].commit.Failed? && s'.written == s.written && s'.target == s.target)
          || (s'.rows[r.id].commit.Committed? && s'.written == s.written + {r.id}
              && s'.target == s.target + multiset{EntityOf(cfg.d, r)}))
  {
  }

  lemma DoneTxn(base: seq<Row>, init: multiset<Entity>, cfg: Config, s: System)
    requires TxnInv(base, init, cfg, s) && cfg.txn && s.workers != [] && Live(Last(s)) && Last(s).todo != []
    requires Last(s).pc.Called? || CommitRow(s.target, cfg.d, Last(s).todo[0]).0.Written?
    ensures TxnInv(base, init, cfg, WorkerStep(s, cfg, |s.workers| - 1))
  {
    var w := |s.workers| - 1;
    var r, s' := Last(s).todo[0], WorkerStep(s, cfg, w);
    StepWeak(base, init, cfg, s, w);
    assert RecordOk(base, cfg, s.workers[w].todo[0]);
    DoneShape(s, cfg, r);
    FlipOne(base, init, cfg, s, s', r);
    PopPending(s, s', Last(s), s'.workers[w]);
    forall k | 0 <= k < w ensures !Live(s'.workers[k]) {
      assert s'.workers[k] == s'.workers[..w][k] == s.workers[k];
    }
  }

  lemma StepTxn(base: seq<Row>, init: multiset<Entity>, cfg: Config, s: System)
    requires TxnInv(base, init, cfg, s) && cfg.txn && s.workers != [] && Live(Last(s))
    ensures TxnInv(base, init, cfg, WorkerStep(s, cfg, |s.workers| - 1))
  {
    var w := |s.workers| - 1;
    if Last(s).todo != [] && (Last(s).pc.Called? || CommitRow(s.target, cfg.d, Last(s).todo[0]).0.Written?) {
      DoneTxn(base, init, cfg, s);
    } else {
      var s' := WorkerStep(s, cfg, w);
      StepWeak(base, init, cfg, s, w);
      assert s'.rows == s.rows && s'.target == s.target && s'.written == s.written;
      assert s'.workers[w].todo == Last(s).todo;
      assert StillPending(s', s'.workers[w]);
    }
  }

  lemma NextTxn(base: seq<Row>, init: multiset<Entity>, cfg: Config, s: System, e: Event)
    requires Staged(base, cfg) && TxnInv(base, init, cfg, s) && cfg.txn && !e.Start?
    ensures TxnInv(base, init, cfg, Next(s, cfg, e))
  {
    match e
    case Restart(limit) => RestartTxn(base, init, cfg, s, limit);
    case Crash(w) => NextWeak(base, init, cfg, s, e);
    case Step(w) =>
      if w < |s.workers| && Live(s.workers[w]) {
        assert w == |s.workers| - 1;
        StepTxn(base, init, cfg, s);
      }
  }

  lemma {:induction false} ExecTxn(base: seq<Row>, init: multiset<Entity>, cfg: Config, es: seq<Event>)
    requires Staged(base, cfg) && Sequential(es) && cfg.txn
    ensures TxnInv(base, init, cfg, Exec(Initial(base, init), cfg, es))
  {
    if es == [] {
      NoEntities(base, cfg.d);
    } else {
      var n := |es| - 1;
      assert es[n] in es;
      ExecTxn(base, init, cfg, es[..n]);
      NextTxn(base, init, cfg, Exec(Initial(base, init), cfg, es[..n]), es[n]);
    }
  }

  /** With the write and the status flip in one transaction, and one process at a time,
      no row is ever seen reserved, and at every moment the target holds exactly one
      entity for each row marked committed: with or without a unique index, whatever
      the identities. */
  lemma TransactionsNeverReserve(base: seq<Row>, init: multiset<Entity>, cfg: Config, es: seq<Event>)
    requires Staged(base, cfg) && Sequential(es) && cfg.txn
    ensures var s := Exec(Initial(base, init), cfg, es);
      && |s.rows| == |base|
      && (forall i :: 0 <= i < |base| && Mine(base[i], cfg.job) ==> !s.rows[i].commit.Committing?)
      && s.target == init + EntitiesOf(base, cfg.d, CommittedRows(s.rows, cfg.job))
  {
    ExecTxn(base, init, cfg, es);
  }
}
