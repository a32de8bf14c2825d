/** Exactly when the promise of the commit loop holds: that after any history of crashes
    one full run leaves every good row with exactly one entity, and every row in the
    state that its write deserves. */
module CommitNecessity {
  import opened Wrappers
  import opened StagedRows
  import opened JobStore
  import opened Bags
  import opened CommitEngine
  import opened CommitBatches
  import opened CommitProtocol
  import opened CommitSafety
  import opened CommitRecovery
  import opened CommitConvergence
  import opened CommitReach
  import opened CommitMarker

  /** The full run that follows the history `es`. */
  ghost function NextRun(base: seq<Row>, init: multiset<Entity>, cfg: Config, es: seq<Event>): Batch {
    var s := Exec(Initial(base, init), cfg, es);
    RunBatch(s.rows, s.target, cfg.d, cfg.txn, cfg.job, None)
  }

  ghost predicate AlwaysSettles(base: seq<Row>, init: multiset<Entity>, cfg: Config) {
    forall es :: Sequential(es) ==> Settled(base, init, cfg, NextRun(base, init, cfg, es))
  }

  // ------------------------------------------------------------- lookalikes

  /** What the run does not have to deal with stays as it is. */
  lemma NotTouched(rows: seq<Row>, target: multiset<Entity>, cfg: Config, i: nat)
    requires Addressed(rows) && UniqueRowIndex(rows, cfg.job)
    requires i < |rows| && !Eligible(rows[i], cfg.job)
    ensures var b := RunBatch(rows, target, cfg.d, cfg.txn, cfg.job, None);
      |b.rows| == |rows| && b.rows[i] == rows[i]
  {
    var todo := Snapshot(rows, cfg.job, None);
    SnapshotRecords(rows, cfg.job);
    assert !InTodo(todo, i);
    ProcessedRow(Batch(rows, target, 0, 0), cfg.d, cfg.txn, todo, i);
  }

  lemma LookalikeUnsettles(base: seq<Row>, init: multiset<Entity>, cfg: Config, i: nat)
    requires Staged(base, cfg) && !cfg.txn && i < |base| && Lookalike(cfg, base[i])
    ensures !AlwaysSettles(base, init, cfg)
  {
    var es := LookalikeIsLost(base, init, cfg, i);
    var s := Exec(Initial(base, init), cfg, es);
    WeakExec(base, init, cfg, es);
    StillStaged(base, cfg, s.rows);
    NotTouched(s.rows, s.target, cfg, i);
    assert !Settled(base, init, cfg, NextRun(base, init, cfg, es));
  }

  // ---------------------------------------------------- identities in the way

  /** A record that the index stops, and that was not reserved, ends as failed. */
  lemma {:induction false} TakenRowFails(b: Batch, d: Descriptor, txn: bool, todo: seq<Row>, k: nat)
    requires DistinctRecords(todo, |b.rows|) && k < |todo| && d.uniqueIndex
    requires Accepts(d, todo[k]) && todo[k].commit.Pending? && Taken(b.target, d, todo[k])
    ensures var b' := ProcessAll(b, d, txn, todo);
      |b'.rows| == |b.rows| && b'.rows[todo[k].id].commit.Failed?
    decreases todo
  {
    var b1 := ProcessRow(b, d, txn, todo[0]);
    if k == 0 {
      assert !InTodo(todo[1..], todo[0].id);
      ProcessedRow(b1, d, txn, todo[1..], todo[0].id);
    } else {
      assert b.target <= b1.target;
      TakenRowFails(b1, d, txn, todo[1..], k - 1);
    }
  }

  /** Of two records with one identity, one ends as failed. */
  lemma {:induction false} ClashingRowsFail(b: Batch, d: Descriptor, txn: bool, todo: seq<Row>, k: nat, l: nat)
    requires DistinctRecords(todo, |b.rows|) && k < l < |todo| && d.uniqueIndex
    requires Accepts(d, todo[k]) && Accepts(d, todo[l]) && todo[l].commit.Pending?
    requires Clash(d, todo[k], todo[l])
    ensures var b' := ProcessAll(b, d, txn, todo);
      |b'.rows| == |b.rows| && b'.rows[todo[l].id].commit.Failed?
    decreases todo
  {
    var b1 := ProcessRow(b, d, txn, todo[0]);
    if k == 0 {
      DealtWithIsTaken(b, d, txn, todo[0]);
      assert Taken(b1.target, d, todo[l]);
      TakenRowFails(b1, d, txn, todo[1..], l - 1);
    } else {
      ClashingRowsFail(b1, d, txn, todo[1..], k - 1, l - 1);
    }
  }

  /** Already the run without any crash fails a good row whose identity is in the target. */
  lemma PresentUnsettles(base: seq<Row>, init: multiset<Entity>, cfg: Config, i: nat)
    requires Staged(base, cfg) && cfg.d.uniqueIndex
    requires i < |base| && Good(cfg, base[i]) && Taken(init, cfg.d, base[i])
    ensures !AlwaysSettles(base, init, cfg)
  {
    SnapshotRecords(base, cfg.job);
    var todo := Snapshot(base, cfg.job, None);
    assert Eligible(base[i], cfg.job);
    var k :| 0 <= k < |todo| && todo[k] == base[i];
    TakenRowFails(Batch(base, init, 0, 0), cfg.d, cfg.txn, todo, k);
    assert !Settled(base, init, cfg, NextRun(base, init, cfg, []));
  }

  lemma ClashUnsettles(base: seq<Row>, init: multiset<Entity>, cfg: Config, i: nat, j: nat)
    requires Staged(base, cfg) && cfg.d.uniqueIndex
    requires i < j < |base| && Good(cfg, base[i]) && Good(cfg, base[j])
    requires Clash(cfg.d, base[i], base[j])
    ensures !AlwaysSettles(base, init, cfg)
  {
    SnapshotRecords(base, cfg.job);
    var todo := Snapshot(base, cfg.job, None);
    assert Eligible(base[i], cfg.job) && Eligible(base[j], cfg.job);
    var k :| 0 <= k < |todo| && todo[k] == base[i];
    var l :| 0 <= l < |todo| && todo[l] == base[j];
    var b := Batch(base, init, 0, 0);
    if k < l {
      ClashingRowsFail(b, cfg.d, cfg.txn, todo, k, l);
    } else {
      ClashingRowsFail(b, cfg.d, cfg.txn, todo, l, k);
    }
    assert !Settled(base, init, cfg, NextRun(base, init, cfg, []));
  }

  // -------------------------------------------------- nothing stops a second write

  /** Reserved, then written. */
  lemma TwoSteps(s: System, cfg: Config, w: nat)
    requires w < |s.workers| && s.workers[w].pc.Top? && s.workers[w].todo != [] && !cfg.txn
    requires NeverStopped(cfg.d, s.workers[w].todo[0])
    ensures var s' := Next(Next(s, cfg, Step(w)), cfg, Step(w)); var r := s.workers[w].todo[0];
      s'.rows == Update(s.rows, r.id, Reserve) && s'.target == s.target + multiset{EntityOf(cfg.d, r)}
  {
    var r := s.workers[w].todo[0];
    assert CommitRow(s.target, cfg.d, r) == (Written(cfg.d.refOf(r.id)), s.target + multiset{EntityOf(cfg.d, r)});
  }

  /** A crash between the write of such a row and its status update. */
  lemma WrittenThenCut(base: seq<Row>, init: multiset<Entity>, cfg: Config, i: nat) returns (es: seq<Event>)
    requires Staged(base, cfg) && !cfg.txn && i < |base| && Mine(base[i], cfg.job) && NeverStopped(cfg.d, base[i])
    ensures Sequential(es)
    ensures var s := Exec(Initial(base, init), cfg, es);
      && init + multiset{EntityOf(cfg.d, base[i])} <= s.target
      && |s.rows| == |base| && Addressed(s.rows) && UniqueRowIndex(s.rows, cfg.job)
      && SameContent(s.rows[i], base[i]) && Eligible(s.rows[i], cfg.job)
  {
    var s0 := Initial(base, init);
    assert Exec(s0, cfg, []) == s0;
    var es1 := RestartToRow(base, init, cfg, [], i);
    var s1 := Exec(s0, cfg, es1);
    WeakExec(base, init, cfg, es1);
    var step := Step(|s1.workers| - 1);
    assert EntityOf(cfg.d, Last(s1).todo[0]) == EntityOf(cfg.d, base[i]);
    TwoSteps(s1, cfg, |s1.workers| - 1);
    ExecSnoc(s0, cfg, es1, step);
    ExecSnoc(s0, cfg, es1 + [step], step);
    es := es1 + [step] + [step];
    WeakExec(base, init, cfg, es);
    StillStaged(base, cfg, Exec(s0, cfg, es).rows);
  }

  /** A run that finds it eligible adds its entity once more. */
  lemma SecondWrite(s: System, cfg: Config, r: Row, i: nat)
    requires Addressed(s.rows) && UniqueRowIndex(s.rows, cfg.job) && !cfg.txn && i < |s.rows|
    requires Eligible(s.rows[i], cfg.job) && SameContent(s.rows[i], r) && NeverStopped(cfg.d, r)
    ensures s.target + multiset{EntityOf(cfg.d, r)}
         <= RunBatch(s.rows, s.target, cfg.d, cfg.txn, cfg.job, None).target
  {
    SnapshotRecords(s.rows, cfg.job);
    var todo := Snapshot(s.rows, cfg.job, None);
    var k :| 0 <= k < |todo| && todo[k] == s.rows[i];
    assert EntityOf(cfg.d, todo[k]) == EntityOf(cfg.d, r);
    WrittenOnceMore(Batch(s.rows, s.target, 0, 0), cfg.d, false, todo, k);
  }

  lemma UnstoppedUnsettles(base: seq<Row>, init: multiset<Entity>, cfg: Config, i: nat)
    requires Staged(base, cfg) && !cfg.txn && FreshRefs(base, init, cfg.d)
    requires i < |base| && Mine(base[i], cfg.job) && NeverStopped(cfg.d, base[i])
    ensures !AlwaysSettles(base, init, cfg)
  {
    var es := WrittenThenCut(base, init, cfg, i);
    var s := Exec(Initial(base, init), cfg, es);
    var x := EntityOf(cfg.d, base[i]);
    SecondWrite(s, cfg, base[i], i);
    var b := NextRun(base, init, cfg, es);
    assert b.target[x] >= init[x] + 2;
    BagOnce(Entities(base, cfg.d), AcceptedRows(base, cfg), |base|, x);
    assert !Settled(base, init, cfg, b);
  }

  // ---------------------------------------------------------------- the theorem

  /** The promise holds for all crash histories if and only if a unique index, where
      there is one, has room for every good row, and either each write is one
      transaction with its status flip, or no refusal looks like a duplicate key and
      the index stops the second write of every good row. */
  lemma SettlesIffSound(base: seq<Row>, init: multiset<Entity>, cfg: Config)
    requires Staged(base, cfg) && FreshRefs(base, init, cfg.d)
    ensures AlwaysSettles(base, init, cfg)
        <==> RoomForAll(base, init, cfg) && (cfg.txn || (NoLookalike(base, cfg) && StopsSecondWrite(base, cfg)))
  {
    if Sound(base, init, cfg) {
      forall es | Sequential(es) ensures Settled(base, init, cfg, NextRun(base, init, cfg, es)) {
        CrashedRunsConverge(base, init, cfg, es);
      }
    } else if !RoomForAll(base, init, cfg) {
      if i :| 0 <= i < |base| && Good(cfg, base[i]) && Taken(init, cfg.d, base[i]) {
        PresentUnsettles(base, init, cfg, i);
      } else {
        var i, j :| 0 <= i < j < |base| && Good(cfg, base[i]) && Good(cfg, base[j]) && Clash(cfg.d, base[i], base[j]);
        ClashUnsettles(base, init, cfg, i, j);
      }
    } else if !NoLookalike(base, cfg) {
      var i :| 0 <= i < |base| && Lookalike(cfg, base[i]);
      LookalikeUnsettles(base, init, cfg, i);
    } else {
      var i :| 0 <= i < |base| && Good(cfg, base[i]) && !Stoppable(cfg.d, base[i]);
      UnstoppedUnsettles(base, init, cfg, i);
    }
  }
}
