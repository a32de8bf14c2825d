/** Runs that overlap: what a stale reader can do to a status, and exactly when the
    target still gets each good row once. */
module CommitOverlap {
  import opened Wrappers
  import opened StagedRows
  import opened Bags
  import opened CommitEngine
  import opened CommitBatches
  import opened CommitProtocol
  import opened CommitSafety
  import opened CommitConvergence
  import opened CommitReach

  lemma StepLeavesOthers(s: System, cfg: Config, w: nat, v: nat)
    requires v != w && v < |s.workers|
    ensures var s' := Next(s, cfg, Step(w)); |s'.workers| == |s.workers| && s'.workers[v] == s.workers[v]
  {
  }

  lemma {:induction false} OthersUntouched(s: System, cfg: Config, w: nat, es: seq<Event>, v: nat)
    requires (forall e :: e in es ==> e == Step(w)) && v != w && v < |s.workers|
    ensures var s' := Exec(s, cfg, es); |s'.workers| == |s.workers| && s'.workers[v] == s.workers[v]
  {
    if es != [] {
      var n := |es| - 1;
      assert es[n] in es && forall e :: e in es[..n] ==> e in es;
      OthersUntouched(s, cfg, w, es[..n], v);
      StepLeavesOthers(Exec(s, cfg, es[..n]), cfg, w, v);
    }
  }

  /** Two runs that have read the same snapshot. */
  function TwoRuns(base: seq<Row>, init: multiset<Entity>, cfg: Config): System {
    var worker := NewWorker(Initial(base, init), cfg, None);
    System(base, init, {}, [worker, worker])
  }

  /** One run has gone through, the other still stands at the start of its snapshot. */
  ghost predicate FirstIsDone(base: seq<Row>, init: multiset<Entity>, cfg: Config, s: System) {
    && |s.workers| == 2
    && s.workers[0].full && s.workers[0].pc.Finished?
    && BatchOf(s, 0) == RunBatch(base, init, cfg.d, cfg.txn, cfg.job, None)
    && s.workers[1] == NewWorker(Initial(base, init), cfg, None)
  }

  lemma OneOfTwoRuns(base: seq<Row>, init: multiset<Entity>, cfg: Config)
    returns (starts: seq<Event>, steps: seq<Event>)
    ensures Exec(Initial(base, init), cfg, starts) == TwoRuns(base, init, cfg)
    ensures forall e :: e in steps ==> e == Step(0)
    ensures FirstIsDone(base, init, cfg, Exec(Initial(base, init), cfg, starts + steps))
  {
    var s0 := Initial(base, init);
    ExecOne(s0, cfg, Start(None));
    ExecSnoc(s0, cfg, [Start(None)], Start(None));
    starts := [Start(None)] + [Start(None)];
    var two := TwoRuns(base, init, cfg);
    assert Exec(s0, cfg, starts) == two;
    steps := StepsRefineRun(two, cfg, 0);
    OthersUntouched(two, cfg, 0, steps, 1);
    ExecAppend(s0, cfg, starts, steps);
  }

  // ---------------------------------------------------------- the stale reader

  /** Row `i` is the first good row of its identity in the order of the run, and the
      identity is new to a target that has an index on it. */
  ghost predicate FirstOfItsKind(base: seq<Row>, init: multiset<Entity>, cfg: Config, i: nat)
    requires i < |base|
  {
    && Good(cfg, base[i]) && Stoppable(cfg.d, base[i]) && !Taken(init, cfg.d, base[i])
    && forall j :: 0 <= j < |base| && j != i && Good(cfg, base[j]) && Clash(cfg.d, base[i], base[j]) ==>
         base[i].rowIndex < base[j].rowIndex
  }

  /** Every identity has a first row. */
  lemma FindFirst(base: seq<Row>, init: multiset<Entity>, cfg: Config, i: nat) returns (first: nat)
    requires Staged(base, cfg) && i < |base|
    requires Good(cfg, base[i]) && Stoppable(cfg.d, base[i]) && !Taken(init, cfg.d, base[i])
    ensures first < |base| && FirstOfItsKind(base, init, cfg, first)
    decreases base[i].rowIndex
  {
    if j :| 0 <= j < |base| && Good(cfg, base[j]) && Clash(cfg.d, base[i], base[j])
            && base[j].rowIndex < base[i].rowIndex
    {
      ClashTaken(init, cfg.d, base[i], base[j]);
      first := FindFirst(base, init, cfg, j);
    } else {
      first := i;
    }
  }

  /** The first run writes and commits it. */
  lemma FirstCommits(base: seq<Row>, init: multiset<Entity>, cfg: Config, i: nat)
    requires Staged(base, cfg) && i < |base| && FirstOfItsKind(base, init, cfg, i)
    ensures var b := RunBatch(base, init, cfg.d, cfg.txn, cfg.job, None);
      && |b.rows| == |base| && b.rows[i].commit.Committed?
      && EntityOf(cfg.d, base[i]) in b.target
  {
    SnapshotSpec(base, cfg.job);
    SnapshotRecords(base, cfg.job);
    var todo := Snapshot(base, cfg.job, None);
    var k :| 0 <= k < |todo| && todo[k] == base[i];
    forall l | 0 <= l < k && Accepts(cfg.d, todo[l]) ensures !Clash(cfg.d, todo[k], todo[l]) {
      assert todo[l].rowIndex < todo[k].rowIndex && Good(cfg, base[todo[l].id]);
    }
    FreeRowCommits(Batch(base, init, 0, 0), cfg.d, cfg.txn, todo, k);
  }

  // What was written can be told from the statuses as long as no record was read
  // reserved: then nothing is committed but by its own write.

  ghost predicate PlainRuns(cfg: Config, s: System) {
    && (forall w, k :: 0 <= w < |s.workers| && 0 <= k < |s.workers[w].todo| ==> s.workers[w].todo[k].commit.Pending?)
    && (forall w :: 0 <= w < |s.workers| && s.workers[w].pc.Called? && s.workers[w].pc.outcome.Written? ==>
          s.workers[w].todo != [] && s.workers[w].todo[0].id in s.written)
    && (forall i :: 0 <= i < |s.rows| && Mine(s.rows[i], cfg.job) && s.rows[i].commit.Committed? ==> i in s.written)
  }

  lemma ClosePlain(cfg: Config, s: System, w: nat, out: Outcome)
    requires PlainRuns(cfg, s) && w < |s.workers| && s.workers[w].todo != []
    requires out.Written? ==> s.workers[w].todo[0].id in s.written
    ensures PlainRuns(cfg, CloseStep(s, cfg, w, out))
  {
  }

  lemma StepPlain(cfg: Config, s: System, e: Event)
    requires PlainRuns(cfg, s) && e.Step?
    ensures PlainRuns(cfg, Next(s, cfg, e)) && s.written <= Next(s, cfg, e).written
  {
    var w := e.w;
    if w < |s.workers| && Live(s.workers[w]) && s.workers[w].todo != [] {
      match s.workers[w].pc
      case Top =>
        if cfg.txn {
          var s1 := WriteStep(s, cfg, w);
          if s1.workers[w].pc.outcome.Written? { ClosePlain(cfg, s1, w, s1.workers[w].pc.outcome); }
        }
      case Reserved =>
      case Called(out) => ClosePlain(cfg, s, w, out);
    }
  }

  lemma {:induction false} StepsPlain(cfg: Config, s: System, es: seq<Event>)
    requires PlainRuns(cfg, s) && forall e :: e in es ==> e.Step?
    ensures PlainRuns(cfg, Exec(s, cfg, es)) && s.written <= Exec(s, cfg, es).written
  {
    if es != [] {
      var n := |es| - 1;
      assert es[n] in es && forall e :: e in es[..n] ==> e in es;
      StepsPlain(cfg, s, es[..n]);
      StepPlain(cfg, Exec(s, cfg, es[..n]), es[n]);
    }
  }

  /** The second run has come to row `i`, read before the first has written it. */
  ghost predicate StaleAt(base: seq<Row>, init: multiset<Entity>, cfg: Config, s: System, i: nat)
    requires i < |base|
  {
    && Weak(base, init, cfg, s) && i in s.written && EntityOf(cfg.d, base[i]) in s.target
    && |s.workers| == 2 && s.workers[1].pc.Top? && s.workers[1].todo != [] && s.workers[1].todo[0] == base[i]
  }

  lemma StaleReaches(base: seq<Row>, init: multiset<Entity>, cfg: Config, i: nat)
    returns (before: seq<Event>, es: seq<Event>)
    requires Staged(base, cfg) && i < |base| && FirstOfItsKind(base, init, cfg, i)
    ensures before <= es && StaleAt(base, init, cfg, Exec(Initial(base, init), cfg, es), i)
    ensures var s := Exec(Initial(base, init), cfg, before); i < |s.rows| && s.rows[i].commit.Committed?
  {
    var s0 := Initial(base, init);
    var starts, steps := OneOfTwoRuns(base, init, cfg);
    before := starts + steps;
    var s1 := Exec(s0, cfg, before);
    FirstCommits(base, init, cfg, i);
    SnapshotRecords(base, cfg.job);
    var k :| 0 <= k < |s1.workers[1].todo| && s1.workers[1].todo[k] == base[i];
    var more := ReachRecord(s1, cfg, 1, k);
    ExecAppend(s0, cfg, before, more);
    es := before + more;
    WeakExec(base, init, cfg, before);
    WeakExec(base, init, cfg, es);
    PlainFromTwo(base, init, cfg, starts, steps, i);
    StepsPlain(cfg, s1, more);
    TargetGrows(BatchOf(s1, 1), cfg.d, cfg.txn, s1.workers[1].todo[..k]);
  }

  /** A row that the first of the two runs has committed has been written. */
  lemma PlainFromTwo(base: seq<Row>, init: multiset<Entity>, cfg: Config, starts: seq<Event>, steps: seq<Event>, i: nat)
    requires Staged(base, cfg) && i < |base| && Mine(base[i], cfg.job)
    requires Exec(Initial(base, init), cfg, starts) == TwoRuns(base, init, cfg)
    requires forall e :: e in steps ==> e == Step(0)
    requires var s := Exec(Initial(base, init), cfg, starts + steps);
      i < |s.rows| && Mine(s.rows[i], cfg.job) && s.rows[i].commit.Committed?
    ensures var s := Exec(Initial(base, init), cfg, starts + steps); PlainRuns(cfg, s) && i in s.written
  {
    SnapshotRecords(base, cfg.job);
    ExecAppend(Initial(base, init), cfg, starts, steps);
    assert PlainRuns(cfg, TwoRuns(base, init, cfg));
    StepsPlain(cfg, TwoRuns(base, init, cfg), steps);
  }

  /** The index stops it there, and the row was not reserved when read. */
  lemma StaleCloses(base: seq<Row>, init: multiset<Entity>, cfg: Config, s: System, i: nat)
    returns (es: seq<Event>)
    requires Staged(base, cfg) && i < |base| && Good(cfg, base[i]) && Stoppable(cfg.d, base[i])
    requires StaleAt(base, init, cfg, s, i)
    ensures forall e :: e in es ==> e == Step(1)
    ensures var s' := Exec(s, cfg, es);
      i < |s'.rows| && s'.rows[i].commit.Failed? && EntityOf(cfg.d, base[i]) in s'.target
  {
    assert Taken(s.target, cfg.d, base[i]);
    assert CommitRow(s.target, cfg.d, base[i]) == (Threw(DUPLICATE_KEY), s.target);
    es := OneRecord(s, cfg, 1);
    assert Exec(s, cfg, es).rows == RowsAfter(s.rows, cfg.txn, base[i], Threw(DUPLICATE_KEY));
    assert Exec(s, cfg, es).target == s.target;
  }

  /** Two overlapping runs can mark a committed row failed, with its entity there. */
  lemma StaleReaderFails(base: seq<Row>, init: multiset<Entity>, cfg: Config, i: nat)
    returns (before: seq<Event>, es: seq<Event>)
    requires Staged(base, cfg) && i < |base| && FirstOfItsKind(base, init, cfg, i)
    ensures before <= es
    ensures var s := Exec(Initial(base, init), cfg, before); i < |s.rows| && s.rows[i].commit.Committed?
    ensures var s := Exec(Initial(base, init), cfg, es);
      && i < |s.rows| && s.rows[i].commit.Failed?
      && i in s.written && EntityOf(cfg.d, base[i]) in s.target
  {
    var s0 := Initial(base, init);
    var es1;
    before, es1 := StaleReaches(base, init, cfg, i);
    var s1 := Exec(s0, cfg, es1);
    var es2 := StaleCloses(base, init, cfg, s1, i);
    WrittenGrows(s1, cfg, es2);
    ExecAppend(s0, cfg, es1, es2);
    es := es1 + es2;
  }

  lemma {:induction false} WrittenGrows(s: System, cfg: Config, es: seq<Event>)
    ensures s.written <= Exec(s, cfg, es).written
  {
    if es != [] { WrittenGrows(s, cfg, es[..|es| - 1]); }
  }

  // ----------------------------------------------- what the failure marker is worth

  /** A row marked failed has written nothing. */
  ghost predicate FailedMeansUnwritten(base: seq<Row>, init: multiset<Entity>, cfg: Config, es: seq<Event>) {
    var s := Exec(Initial(base, init), cfg, es);
    forall i :: 0 <= i < |base| && i < |s.rows| && Mine(base[i], cfg.job) && s.rows[i].commit.Failed?
      ==> i !in s.written
  }

  /** No good row brings a new identity to a target with an index on it. */
  ghost predicate NothingNew(base: seq<Row>, init: multiset<Entity>, cfg: Config) {
    forall i :: 0 <= i < |base| && Good(cfg, base[i]) && Stoppable(cfg.d, base[i]) ==> Taken(init, cfg.d, base[i])
  }

  /** Then a row is written only if nothing ever stops it, and such a row never fails. */
  ghost predicate FailureInv(base: seq<Row>, init: multiset<Entity>, cfg: Config, s: System) {
    && Weak(base, init, cfg, s)
    && (forall i :: 0 <= i < |base| && Mine(base[i], cfg.job) ==>
          && (i in s.written ==> NeverStopped(cfg.d, base[i]))
          && (NeverStopped(cfg.d, base[i]) ==> !s.rows[i].commit.Failed?))
    && (forall w :: 0 <= w < |s.workers| && s.workers[w].pc.Called? ==>
          s.workers[w].todo != [] && (NeverStopped(cfg.d, s.workers[w].todo[0]) ==> s.workers[w].pc.outcome.Written?))
  }

  lemma WriteFails(base: seq<Row>, init: multiset<Entity>, cfg: Config, s: System, w: nat)
    requires FailureInv(base, init, cfg, s) && NothingNew(base, init, cfg)
    requires w < |s.workers| && s.workers[w].todo != []
    ensures FailureInv(base, init, cfg, WriteStep(s, cfg, w))
  {
    var r := s.workers[w].todo[0];
    WriteWeak(base, init, cfg, s, w);
    assert RecordOk(base, cfg, r);
    assert NeverStopped(cfg.d, r) == NeverStopped(cfg.d, base[r.id]);
    assert CommitRow(s.target, cfg.d, r).0.Written? <==> NeverStopped(cfg.d, r) by {
      if Good(cfg, base[r.id]) && Stoppable(cfg.d, base[r.id]) {
        var e :| e in init && Identity(cfg.d, e.fields) == Identity(cfg.d, base[r.id].mappedFields);
        assert e in s.target;
      }
    }
  }

  lemma CloseFails(base: seq<Row>, init: multiset<Entity>, cfg: Config, s: System, w: nat)
    requires FailureInv(base, init, cfg, s) && w < |s.workers| && s.workers[w].pc.Called?
    ensures FailureInv(base, init, cfg, CloseStep(s, cfg, w, s.workers[w].pc.outcome))
  {
    var r := s.workers[w].todo[0];
    CloseWeak(base, init, cfg, s, w, s.workers[w].pc.outcome);
    assert RecordOk(base, cfg, r);
    assert NeverStopped(cfg.d, r) == NeverStopped(cfg.d, base[r.id]);
  }

  lemma StepFails(base: seq<Row>, init: multiset<Entity>, cfg: Config, s: System, w: nat)
    requires FailureInv(base, init, cfg, s) && NothingNew(base, init, cfg)
    requires w < |s.workers| && Live(s.workers[w])
    ensures FailureInv(base, init, cfg, WorkerStep(s, cfg, w))
  {
    StepWeak(base, init, cfg, s, w);
    if s.workers[w].todo != [] {
      match s.workers[w].pc
      case Top =>
        if cfg.txn {
          WriteFails(base, init, cfg, s, w);
          CloseFails(base, init, cfg, WriteStep(s, cfg, w), w);
        }
      case Reserved => WriteFails(base, init, cfg, s, w);
      case Called(_) => CloseFails(base, init, cfg, s, w);
    }
  }

  lemma NextFails(base: seq<Row>, init: multiset<Entity>, cfg: Config, s: System, e: Event)
    requires Staged(base, cfg) && FailureInv(base, init, cfg, s) && NothingNew(base, init, cfg)
    ensures FailureInv(base, init, cfg, Next(s, cfg, e))
  {
    NextWeak(base, init, cfg, s, e);
    match e
    case Step(w) => if w < |s.workers| && Live(s.workers[w]) { StepFails(base, init, cfg, s, w); }
    case _ =>
  }

  lemma {:induction false} ExecFails(base: seq<Row>, init: multiset<Entity>, cfg: Config, es: seq<Event>)
    requires Staged(base, cfg) && NothingNew(base, init, cfg)
    ensures FailureInv(base, init, cfg, Exec(Initial(base, init), cfg, es))
  {
    if es != [] {
      var n := |es| - 1;
      ExecFails(base, init, cfg, es[..n]);
      NextFails(base, init, cfg, Exec(Initial(base, init), cfg, es[..n]), es[n]);
    }
  }

  /** Under all overlaps a failed row has written nothing if and only if no good row
      brings a new identity to a target that has a unique index on it. */
  lemma FailedMeansUnwrittenIff(base: seq<Row>, init: multiset<Entity>, cfg: Config)
    requires Staged(base, cfg)
    ensures (forall es :: FailedMeansUnwritten(base, init, cfg, es)) <==> NothingNew(base, init, cfg)
  {
    if NothingNew(base, init, cfg) {
      forall es ensures FailedMeansUnwritten(base, init, cfg, es) {
        ExecFails(base, init, cfg, es);
      }
    } else {
      var i :| 0 <= i < |base| && Good(cfg, base[i]) && Stoppable(cfg.d, base[i]) && !Taken(init, cfg.d, base[i]);
      var first := FindFirst(base, init, cfg, i);
      var before, es := StaleReaderFails(base, init, cfg, first);
      assert !FailedMeansUnwritten(base, init, cfg, es);
    }
  }

  // ------------------------------------------------------ each good row once

  /** At most one entity for each good row at any time, and one for each as soon as
      a full run has ended. */
  ghost predicate OnceEach(base: seq<Row>, init: multiset<Entity>, cfg: Config, es: seq<Event>) {
    var s := Exec(Initial(base, init), cfg, es);
    var all := init + EntitiesOf(base, cfg.d, AcceptedRows(base, cfg));
    s.target <= all && (HasCompleteRun(s) ==> s.target == all)
  }

  lemma GuardedWritesOnce(base: seq<Row>, init: multiset<Entity>, cfg: Config, es: seq<Event>)
    requires Guarded(base, init, cfg)
    ensures OnceEach(base, init, cfg, es)
  {
    InterleavedRunsAreSafe(base, init, cfg, es);
    BagMono(Entities(base, cfg.d), Exec(Initial(base, init), cfg, es).written, AcceptedRows(base, cfg), |base|);
  }

  /** Without anything to stop it, a good row is written by both of two overlapping
      runs, in a transaction or not. */
  lemma OverlapWritesTwice(base: seq<Row>, init: multiset<Entity>, cfg: Config, i: nat) returns (es: seq<Event>)
    requires Staged(base, cfg) && i < |base| && Mine(base[i], cfg.job) && NeverStopped(cfg.d, base[i])
    ensures var x := EntityOf(cfg.d, base[i]);
      Exec(Initial(base, init), cfg, es).target[x] >= init[x] + 2
  {
    var s0 := Initial(base, init);
    var starts, first := OneOfTwoRuns(base, init, cfg);
    var es1 := starts + first;
    var s1 := Exec(s0, cfg, es1);
    SnapshotRecords(base, cfg.job);
    var todo := Snapshot(base, cfg.job, None);
    var k :| 0 <= k < |todo| && todo[k] == base[i];
    WrittenOnceMore(Batch(base, init, 0, 0), cfg.d, cfg.txn, todo, k);
    WrittenOnceMore(BatchOf(s1, 1), cfg.d, cfg.txn, todo, k);
    var steps := StepsRefineRun(s1, cfg, 1);
    ExecAppend(s0, cfg, es1, steps);
    es := es1 + steps;
  }

  lemma TwiceIsTooMuch(base: seq<Row>, init: multiset<Entity>, cfg: Config, i: nat)
    requires Staged(base, cfg) && FreshRefs(base, init, cfg.d)
    requires i < |base| && Mine(base[i], cfg.job) && NeverStopped(cfg.d, base[i])
    ensures exists es :: !OnceEach(base, init, cfg, es)
  {
    var es := OverlapWritesTwice(base, init, cfg, i);
    BagOnce(Entities(base, cfg.d), AcceptedRows(base, cfg), |base|, EntityOf(cfg.d, base[i]));
    assert !OnceEach(base, init, cfg, es);
  }

  lemma SingleRun(base: seq<Row>, init: multiset<Entity>, cfg: Config) returns (es: seq<Event>)
    ensures var s := Exec(Initial(base, init), cfg, es);
      HasCompleteRun(s) && s.target == RunBatch(base, init, cfg.d, cfg.txn, cfg.job, None).target
  {
    var starts, steps := OneOfTwoRuns(base, init, cfg);
    es := starts + steps;
  }

  /** The records of a staged import stand for different entities, none of them old. */
  lemma RecordsOwnTheirs(base: seq<Row>, init: multiset<Entity>, cfg: Config, i: nat) returns (k: nat)
    requires Staged(base, cfg) && FreshRefs(base, init, cfg.d) && i < |base| && Good(cfg, base[i])
    ensures var todo := Snapshot(base, cfg.job, None);
      k < |todo| && todo[k] == base[i] && OwnEntity(cfg.d, todo, k)
    ensures EntityOf(cfg.d, base[i]) !in init
    ensures EntityOf(cfg.d, base[i]) in EntitiesOf(base, cfg.d, AcceptedRows(base, cfg))
  {
    SnapshotRecords(base, cfg.job);
    var todo := Snapshot(base, cfg.job, None);
    k :| 0 <= k < |todo| && todo[k] == base[i];
    forall l | 0 <= l < |todo| && l != k ensures EntityOf(cfg.d, todo[l]) != EntityOf(cfg.d, todo[k]) {
      assert cfg.d.refOf(todo[l].id) != cfg.d.refOf(todo[k].id);
    }
    EntitiesHave(base, cfg.d, AcceptedRows(base, cfg), EntityOf(cfg.d, base[i]));
  }

  lemma PresentIsMissing(base: seq<Row>, init: multiset<Entity>, cfg: Config, i: nat)
    requires Staged(base, cfg) && FreshRefs(base, init, cfg.d) && cfg.d.uniqueIndex
    requires i < |base| && Good(cfg, base[i]) && Taken(init, cfg.d, base[i])
    ensures exists es :: !OnceEach(base, init, cfg, es)
  {
    var k := RecordsOwnTheirs(base, init, cfg, i);
    StoppedNotWritten(Batch(base, init, 0, 0), cfg.d, cfg.txn, Snapshot(base, cfg.job, None), k);
    var es := SingleRun(base, init, cfg);
    assert !OnceEach(base, init, cfg, es);
  }

  lemma ClashIsMissing(base: seq<Row>, init: multiset<Entity>, cfg: Config, i: nat, j: nat)
    requires Staged(base, cfg) && FreshRefs(base, init, cfg.d) && cfg.d.uniqueIndex
    requires i < j < |base| && Good(cfg, base[i]) && Good(cfg, base[j])
    requires Clash(cfg.d, base[i], base[j])
    ensures exists es :: !OnceEach(base, init, cfg, es)
  {
    var k := RecordsOwnTheirs(base, init, cfg, i);
    var l := RecordsOwnTheirs(base, init, cfg, j);
    var b, todo := Batch(base, init, 0, 0), Snapshot(base, cfg.job, None);
    if k < l {
      ClashNotWritten(b, cfg.d, cfg.txn, todo, k, l);
    } else {
      ClashNotWritten(b, cfg.d, cfg.txn, todo, l, k);
    }
    var es := SingleRun(base, init, cfg);
    assert !OnceEach(base, init, cfg, es);
  }

  /** With or without transactions, all overlaps and crashes write each good row once
      if and only if a unique index stops the second write of every good row and has
      room for all of them. */
  lemma OverlapsWriteOnceIff(base: seq<Row>, init: multiset<Entity>, cfg: Config)
    requires Staged(base, cfg) && FreshRefs(base, init, cfg.d)
    ensures (forall es :: OnceEach(base, init, cfg, es))
        <==> RoomForAll(base, init, cfg) && StopsSecondWrite(base, cfg)
  {
    if Guarded(base, init, cfg) {
      forall es ensures OnceEach(base, init, cfg, es) {
        GuardedWritesOnce(base, init, cfg, es);
      }
    } else if !StopsSecondWrite(base, cfg) {
      var i :| 0 <= i < |base| && Good(cfg, base[i]) && !Stoppable(cfg.d, base[i]);
      TwiceIsTooMuch(base, init, cfg, i);
    } else if i :| 0 <= i < |base| && Good(cfg, base[i]) && Taken(init, cfg.d, base[i]) {
      PresentIsMissing(base, init, cfg, i);
    } else {
      var i, j :| 0 <= i < j < |base| && Good(cfg, base[i]) && Good(cfg, base[j]) && Clash(cfg.d, base[i], base[j]);
      ClashIsMissing(base, init, cfg, i, j);
    }
  }

  // ------------------------------------------------------ after any history at all

  /** Whatever has overlapped and died before, the next full run settles the import: no
      row is left to commit, and each accepted row has exactly one entity. */
  lemma AnyHistoryConverges(base: seq<Row>, init: multiset<Entity>, cfg: Config, es: seq<Event>)
    requires Guarded(base, init, cfg)
    ensures var s := Exec(Initial(base, init), cfg, es);
      var b := RunBatch(s.rows, s.target, cfg.d, cfg.txn, cfg.job, None);
      && b.target == init + EntitiesOf(base, cfg.d, AcceptedRows(base, cfg))
      && |b.rows| == |base|
      && forall i :: 0 <= i < |base| && Mine(base[i], cfg.job) ==>
           b.rows[i].commit.Committed? || b.rows[i].commit.Failed?
  {
    var s := Exec(Initial(base, init), cfg, es);
    var steps := RestartedRun(s, cfg);
    ExecThen(Initial(base, init), cfg, es, Restart(None), steps);
    InterleavedRunsAreSafe(base, init, cfg, es);
    InterleavedRunsAreSafe(base, init, cfg, es + [Restart(None)] + steps);
    WeakExec(base, init, cfg, es);
    StillStaged(base, cfg, s.rows);
    forall i | 0 <= i < |base| && Mine(base[i], cfg.job)
      ensures var b := RunBatch(s.rows, s.target, cfg.d, cfg.txn, cfg.job, None);
        i < |b.rows| && (b.rows[i].commit.Committed? || b.rows[i].commit.Failed?)
    {
      RunSettles(base, cfg, s, i);
    }
    ProcessedCounts(Batch(s.rows, s.target, 0, 0), cfg.d, cfg.txn, Snapshot(s.rows, cfg.job, None));
  }

  lemma RunSettles(base: seq<Row>, cfg: Config, s: System, i: nat)
    requires i < |base| == |s.rows| && Addressed(s.rows) && UniqueRowIndex(s.rows, cfg.job)
    requires Mine(base[i], cfg.job) && SameContent(s.rows[i], base[i]) && !s.rows[i].commit.Skipped?
    ensures var b := RunBatch(s.rows, s.target, cfg.d, cfg.txn, cfg.job, None);
      |b.rows| == |base| && (b.rows[i].commit.Committed? || b.rows[i].commit.Failed?)
  {
    var todo := Snapshot(s.rows, cfg.job, None);
    SnapshotRecords(s.rows, cfg.job);
    ProcessedRow(Batch(s.rows, s.target, 0, 0), cfg.d, cfg.txn, todo, i);
    if Eligible(s.rows[i], cfg.job) {
      var k :| 0 <= k < |todo| && todo[k] == s.rows[i];
      assert InTodo(todo, i);
    }
  }
}
