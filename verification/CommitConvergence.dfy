/** The atomic steps refine the engine's uninterrupted run, and that run, started
    after any crash history, ends where a crash-free run would have ended. */
module CommitConvergence {
  import opened Wrappers
  import opened StagedRows
  import opened JobStore
  import opened CommitEngine
  import opened CommitProtocol
  import opened CommitSafety
  import opened CommitRecovery

  /** Everything the engine reports, seen in a system whose worker `w` is at hand. */
  function BatchOf(s: System, w: nat): Batch
    requires w < |s.workers|
  {
    Batch(s.rows, s.target, s.workers[w].committed, s.workers[w].failed)
  }

  lemma ExecOne(s: System, cfg: Config, e: Event)
    ensures Exec(s, cfg, [e]) == Next(s, cfg, e)
  {
    assert [e][..0] == [];
    assert Exec(s, cfg, []) == s;
  }

  lemma ExecSnoc(s: System, cfg: Config, es: seq<Event>, e: Event)
    ensures Exec(s, cfg, es + [e]) == Next(Exec(s, cfg, es), cfg, e)
  {
    assert (es + [e])[..|es + [e]| - 1] == es;
  }

  /** `s'` is `s` after worker `w` has dealt with its next record. */
  ghost predicate OneRecordLater(s: System, cfg: Config, w: nat, s': System)
    requires w < |s.workers| && s.workers[w].todo != []
  {
    var me := s.workers[w];
    && |s'.workers| == |s.workers|
    && BatchOf(s', w) == ProcessRow(BatchOf(s, w), cfg.d, cfg.txn, me.todo[0])
    && s'.workers[w].todo == me.todo[1..] && s'.workers[w].pc.Top? && s'.workers[w].full == me.full
  }

  lemma ThreeSteps(s: System, cfg: Config, w: nat)
    requires w < |s.workers| && s.workers[w].pc.Top? && s.workers[w].todo != [] && !cfg.txn
    ensures var e := Step(w);
      OneRecordLater(s, cfg, w, Next(Next(Next(s, cfg, e), cfg, e), cfg, e))
  {
    var me := s.workers[w];
    var s1 := WorkerStep(s, cfg, w);
    assert s1.workers[w] == me.(pc := Reserved) && s1.target == s.target;
    var out := CommitRow(s.target, cfg.d, me.todo[0]).0;
    var s2 := WriteStep(s1, cfg, w);
    assert s2.workers[w] == me.(pc := Called(out)) && s2.rows == s1.rows;
    assert Next(Next(s, cfg, Step(w)), cfg, Step(w)) == s2;
    var s3 := CloseStep(s2, cfg, w, out);
    assert Next(s2, cfg, Step(w)) == s3;
  }

  /** In a transaction an accepted record takes one step, a refused one two. */
  lemma TransactionSteps(s: System, cfg: Config, w: nat)
    requires w < |s.workers| && s.workers[w].pc.Top? && s.workers[w].todo != [] && cfg.txn
    ensures var s1 := Next(s, cfg, Step(w));
      && w < |s1.workers|
      && OneRecordLater(s, cfg, w, if s1.workers[w].pc.Called? then Next(s1, cfg, Step(w)) else s1)
  {
    var me := s.workers[w];
    var out := CommitRow(s.target, cfg.d, me.todo[0]).0;
    var s1 := WriteStep(s, cfg, w);
    assert s1.workers[w] == me.(pc := Called(out)) && s1.rows == s.rows;
    var s2 := CloseStep(s1, cfg, w, out);
    assert OneRecordLater(s, cfg, w, s2);
  }

  /** A worker whose cursor stands at a record needs one to three steps for it. */
  lemma OneRecord(s: System, cfg: Config, w: nat) returns (es: seq<Event>)
    requires w < |s.workers| && s.workers[w].pc.Top? && s.workers[w].todo != []
    ensures forall e :: e in es ==> e == Step(w)
    ensures OneRecordLater(s, cfg, w, Exec(s, cfg, es))
  {
    var e := Step(w);
    ExecOne(s, cfg, e);
    ExecSnoc(s, cfg, [e], e);
    ExecSnoc(s, cfg, [e] + [e], e);
    if cfg.txn {
      TransactionSteps(s, cfg, w);
      es := if Next(s, cfg, e).workers[w].pc.Called? then [e] + [e] else [e];
    } else {
      ThreeSteps(s, cfg, w);
      es := [e] + [e] + [e];
    }
  }

  /** Left alone, a worker ends with exactly what the uninterrupted run computes. */
  lemma {:induction false} StepsRefineRun(s: System, cfg: Config, w: nat) returns (es: seq<Event>)
    requires w < |s.workers| && s.workers[w].pc.Top?
    ensures forall e :: e in es ==> e == Step(w)
    ensures var s' := Exec(s, cfg, es); var me := s.workers[w];
      && |s'.workers| == |s.workers|
      && BatchOf(s', w) == ProcessAll(BatchOf(s, w), cfg.d, cfg.txn, me.todo)
      && s'.workers[w].pc.Finished? && s'.workers[w].full == me.full
    decreases |s.workers[w].todo|
  {
    if s.workers[w].todo == [] {
      ExecOne(s, cfg, Step(w));
      es := [Step(w)];
    } else {
      var first := OneRecord(s, cfg, w);
      var rest := StepsRefineRun(Exec(s, cfg, first), cfg, w);
      ExecAppend(s, cfg, first, rest);
      es := first + rest;
    }
  }

  /** What a restarted full run does from a given state. */
  lemma RestartedRun(s: System, cfg: Config) returns (steps: seq<Event>)
    ensures forall e :: e in steps ==> e.Step?
    ensures var s' := Exec(Next(s, cfg, Restart(None)), cfg, steps);
      && s'.workers != [] && Last(s').full && Last(s').pc.Finished?
      && BatchOf(s', |s'.workers| - 1) == RunBatch(s.rows, s.target, cfg.d, cfg.txn, cfg.job, None)
  {
    var s1 := Next(s, cfg, Restart(None));
    var w := |s1.workers| - 1;
    assert s1.workers[w] == NewWorker(s, cfg, None) && BatchOf(s1, w) == Batch(s.rows, s.target, 0, 0);
    steps := StepsRefineRun(s1, cfg, w);
  }

  lemma ExecThen(s: System, cfg: Config, es: seq<Event>, e: Event, more: seq<Event>)
    ensures Exec(s, cfg, es + [e] + more) == Exec(Next(Exec(s, cfg, es), cfg, e), cfg, more)
  {
    ExecSnoc(s, cfg, es, e);
    ExecAppend(s, cfg, es + [e], more);
  }

  lemma SequentialThen(es: seq<Event>, more: seq<Event>)
    requires Sequential(es) && forall e :: e in more ==> e.Step?
    ensures Sequential(es + [Restart(None)] + more) && es <= es + [Restart(None)] + more
  {
  }

  /** The same, as a schedule. */
  lemma FullRun(base: seq<Row>, init: multiset<Entity>, cfg: Config, es: seq<Event>) returns (es': seq<Event>)
    requires Sequential(es)
    ensures Sequential(es') && es <= es'
    ensures var s := Exec(Initial(base, init), cfg, es); var s' := Exec(Initial(base, init), cfg, es');
      && s'.workers != [] && Last(s').full && Last(s').pc.Finished?
      && BatchOf(s', |s'.workers| - 1) == RunBatch(s.rows, s.target, cfg.d, cfg.txn, cfg.job, None)
  {
    var steps := RestartedRun(Exec(Initial(base, init), cfg, es), cfg);
    ExecThen(Initial(base, init), cfg, es, Restart(None), steps);
    SequentialThen(es, steps);
    es' := es + [Restart(None)] + steps;
  }

  /** Every valid row has reached its final state, and the target agrees. */
  ghost predicate Settled(base: seq<Row>, init: multiset<Entity>, cfg: Config, b: Batch) {
    && |b.rows| == |base|
    && b.target == init + EntitiesOf(base, cfg.d, AcceptedRows(base, cfg))
    && (forall i :: 0 <= i < |base| ==>
          RowState(cfg, base[i], b.rows[i], i in AcceptedRows(base, cfg)) && !Eligible(b.rows[i], cfg.job))
  }

  lemma FinishedIsSettled(base: seq<Row>, init: multiset<Entity>, cfg: Config, s: System)
    requires SeqInv(base, init, cfg, s)
    requires s.workers != [] && Last(s).full && Last(s).pc.Finished?
    ensures Settled(base, init, cfg, BatchOf(s, |s.workers| - 1))
  {
    assert AllInTodo(s.rows, cfg.job, []);
    forall i | 0 <= i < |base|
      ensures !Eligible(s.rows[i], cfg.job) && (i in s.written <==> i in AcceptedRows(base, cfg))
    {
      assert RowState(cfg, base[i], s.rows[i], i in s.written);
    }
    assert s.written == AcceptedRows(base, cfg);
  }

  lemma FinishedScheduleSettles(base: seq<Row>, init: multiset<Entity>, cfg: Config, es: seq<Event>)
    requires Sound(base, init, cfg) && Sequential(es)
    requires var s := Exec(Initial(base, init), cfg, es); s.workers != [] && Last(s).full && Last(s).pc.Finished?
    ensures var s := Exec(Initial(base, init), cfg, es);
      Settled(base, init, cfg, BatchOf(s, |s.workers| - 1))
  {
    ExecState(base, init, cfg, es);
    FinishedIsSettled(base, init, cfg, Exec(Initial(base, init), cfg, es));
  }

  /** However often the import has been cut and restarted, the next full run
      settles it: no row is left, each accepted row has exactly one entity. */
  lemma CrashedRunsConverge(base: seq<Row>, init: multiset<Entity>, cfg: Config, es: seq<Event>)
    requires Sound(base, init, cfg) && Sequential(es)
    ensures var s := Exec(Initial(base, init), cfg, es);
      Settled(base, init, cfg, RunBatch(s.rows, s.target, cfg.d, cfg.txn, cfg.job, None))
  {
    var es' := FullRun(base, init, cfg, es);
    FinishedScheduleSettles(base, init, cfg, es');
  }

  /** Without a crash no record is read reserved, so each committed row names its entity. */
  lemma {:induction false} CrashFreeNames(b: Batch, d: Descriptor, txn: bool, todo: seq<Row>, i: nat)
    requires forall k :: 0 <= k < |todo| ==> todo[k].commit.Pending? && todo[k].id < |b.rows|
    requires i < |b.rows| && (b.rows[i].commit.Committed? ==> b.rows[i].entity == Some(d.refOf(i)))
    ensures var b' := ProcessAll(b, d, txn, todo);
      |b'.rows| == |b.rows| && (b'.rows[i].commit.Committed? ==> b'.rows[i].entity == Some(d.refOf(i)))
    decreases todo
  {
    if todo != [] {
      CrashFreeNames(ProcessRow(b, d, txn, todo[0]), d, txn, todo[1..], i);
    }
  }

  /** Rows and target equal the crash-free result, except that a row recognised as
      its own earlier write may lack the name of its entity. */
  lemma SameAsCrashFree(base: seq<Row>, init: multiset<Entity>, cfg: Config, es: seq<Event>)
    requires Sound(base, init, cfg) && Sequential(es)
    ensures var s := Exec(Initial(base, init), cfg, es);
      var after := RunBatch(s.rows, s.target, cfg.d, cfg.txn, cfg.job, None);
      var clean := RunBatch(base, init, cfg.d, cfg.txn, cfg.job, None);
      && after.target == clean.target
      && |after.rows| == |clean.rows| == |base|
      && forall i :: 0 <= i < |base| ==>
           || after.rows[i] == clean.rows[i]
           || (!cfg.txn && clean.rows[i].commit.Committed? && after.rows[i] == clean.rows[i].(entity := base[i].entity))
  {
    CrashedRunsConverge(base, init, cfg, es);
    CrashedRunsConverge(base, init, cfg, []);
    var s := Exec(Initial(base, init), cfg, es);
    assert Exec(Initial(base, init), cfg, []) == Initial(base, init);
    var after := RunBatch(s.rows, s.target, cfg.d, cfg.txn, cfg.job, None);
    var clean := RunBatch(base, init, cfg.d, cfg.txn, cfg.job, None);
    forall i | 0 <= i < |base| && Mine(base[i], cfg.job) && clean.rows[i].commit.Committed?
      ensures clean.rows[i] == Patched(base[i], Commit(cfg.d.refOf(i)))
    {
      NamesAtEnd(base, init, cfg, i);
      assert RowState(cfg, base[i], clean.rows[i], true);
    }
    forall i | 0 <= i < |base| ensures
      || after.rows[i] == clean.rows[i]
      || (!cfg.txn && clean.rows[i].commit.Committed? && after.rows[i] == clean.rows[i].(entity := base[i].entity))
    {
      assert RowState(cfg, base[i], after.rows[i], i in AcceptedRows(base, cfg));
      assert RowState(cfg, base[i], clean.rows[i], i in AcceptedRows(base, cfg));
    }
  }

  lemma NamesAtEnd(base: seq<Row>, init: multiset<Entity>, cfg: Config, i: nat)
    requires Staged(base, cfg) && i < |base| && Mine(base[i], cfg.job)
    ensures var clean := RunBatch(base, init, cfg.d, cfg.txn, cfg.job, None);
      |clean.rows| == |base| && (clean.rows[i].commit.Committed? ==> clean.rows[i].entity == Some(cfg.d.refOf(i)))
  {
    var todo := Snapshot(base, cfg.job, None);
    forall k | 0 <= k < |todo| ensures todo[k].commit.Pending? && todo[k].id < |base| {
      SnapshotLimited(base, cfg.job, None, todo[k]);
      var j :| 0 <= j < |base| && base[j] == todo[k];
    }
    CrashFreeNames(Batch(base, init, 0, 0), cfg.d, cfg.txn, todo, i);
  }

  /** What the status of row `i` says about its write. */
  ghost predicate RowTellsWrite(base: seq<Row>, cfg: Config, s: System, i: nat)
    requires i < |base| == |s.rows|
  {
    && !s.rows[i].commit.Skipped?
    && (s.rows[i].commit.Pending? ==> i !in s.written)
    && (s.rows[i].commit.Failed? ==> i !in s.written && !Accepts(cfg.d, base[i]))
    && (s.rows[i].commit.Committed? ==> i in s.written && EntityOf(cfg.d, base[i]) in s.target)
    && (Stoppable(cfg.d, base[i]) && Accepts(cfg.d, base[i]) ==> (Taken(s.target, cfg.d, base[i]) <==> i in s.written))
  }

  lemma RowTells(base: seq<Row>, init: multiset<Entity>, cfg: Config, s: System, i: nat)
    requires SeqInv(base, init, cfg, s) && i < |base| && Mine(base[i], cfg.job)
    ensures |s.rows| == |base| && RowTellsWrite(base, cfg, s, i)
  {
    assert RowState(cfg, base[i], s.rows[i], i in s.written);
    if Stoppable(cfg.d, base[i]) && Accepts(cfg.d, base[i]) {
      TakenIsWritten(base, init, cfg, s.target, s.written, i);
    }
    EntitiesHave(base, cfg.d, s.written, EntityOf(cfg.d, base[i]));
  }

  /** The duplicate-key error that a worker has in hand. */
  ghost predicate DuplicateInHand(s: System) {
    && s.workers != [] && Last(s).pc.Called? && Last(s).pc.outcome.Threw?
    && IsDuplicateKeyError(Last(s).pc.outcome.error)
  }

  lemma DuplicateIsOwn(base: seq<Row>, init: multiset<Entity>, cfg: Config, s: System)
    requires SeqInv(base, init, cfg, s) && !cfg.txn
    ensures DuplicateInHand(s) ==>
      && Last(s).todo != [] && Last(s).todo[0].commit.Committing?
      && EntityOf(cfg.d, Last(s).todo[0]) in s.target
  {
    if DuplicateInHand(s) {
      var r := Last(s).todo[0];
      HandState(base, init, cfg, s, |s.workers| - 1);
      RowTells(base, init, cfg, s, r.id);
      assert Accepts(cfg.d, r) == Accepts(cfg.d, base[r.id]);
      assert EntityOf(cfg.d, r) == EntityOf(cfg.d, base[r.id]);
      EntitiesHave(base, cfg.d, s.written, EntityOf(cfg.d, r));
    }
  }

  /** The state of every row between any two steps, crashes included. The target is
      the initial one plus one entity for each row written; a pending or failed row
      is not among those, a committed one is, and only `committing` is ambiguous. A
      duplicate key on a row read as reserved is that row's own write. */
  lemma OnlyCommittingIsAmbiguous(base: seq<Row>, init: multiset<Entity>, cfg: Config, es: seq<Event>)
    requires Sound(base, init, cfg) && Sequential(es) && !cfg.txn
    ensures var s := Exec(Initial(base, init), cfg, es);
      && |s.rows| == |base|
      && s.target == init + EntitiesOf(base, cfg.d, s.written)
      && (forall i :: 0 <= i < |base| && Mine(base[i], cfg.job) ==> RowTellsWrite(base, cfg, s, i))
      && (DuplicateInHand(s) ==>
            && Last(s).todo != [] && Last(s).todo[0].commit.Committing?
            && EntityOf(cfg.d, Last(s).todo[0]) in s.target)
  {
    ExecState(base, init, cfg, es);
    var s := Exec(Initial(base, init), cfg, es);
    forall i | 0 <= i < |base| && Mine(base[i], cfg.job) ensures RowTellsWrite(base, cfg, s, i) {
      RowTells(base, init, cfg, s, i);
    }
    DuplicateIsOwn(base, init, cfg, s);
  }
}
