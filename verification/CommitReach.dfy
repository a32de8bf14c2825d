/** Histories that bring a run to a given row, and what every history keeps. */
module CommitReach {
  import opened Wrappers
  import opened StagedRows
  import opened JobStore
  import opened CommitEngine
  import opened CommitBatches
  import opened CommitProtocol
  import opened CommitSafety
  import opened CommitRecovery
  import opened CommitConvergence

  /** The target gives every entity a reference of its own. */
  ghost predicate FreshRefs(base: seq<Row>, init: multiset<Entity>, d: Descriptor) {
    && (forall i, j :: 0 <= i < j < |base| ==> d.refOf(i) != d.refOf(j))
    && (forall i, e :: 0 <= i < |base| && e in init ==> e.ref != d.refOf(i))
  }

  // ----------------------------------------------------- what every history keeps

  ghost predicate FromGood(base: seq<Row>, cfg: Config, e: Entity) {
    exists k :: 0 <= k < |base| && Good(cfg, base[k]) && EntityOf(cfg.d, base[k]) == e
  }

  /** Content is fixed, workers hold eligible records, and the target keeps what it had
      and gains only entities of good rows. */
  ghost predicate Weak(base: seq<Row>, init: multiset<Entity>, cfg: Config, s: System) {
    && |s.rows| == |base|
    && (forall i :: 0 <= i < |base| ==> SameContent(s.rows[i], base[i]))
    && (forall w, k :: 0 <= w < |s.workers| && 0 <= k < |s.workers[w].todo|
          ==> RecordOk(base, cfg, s.workers[w].todo[k]))
    && init <= s.target
    && (forall e :: e in s.target ==> e in init || FromGood(base, cfg, e))
  }

  lemma WeakNewWorker(base: seq<Row>, init: multiset<Entity>, cfg: Config, s: System, limit: Option<nat>)
    requires Staged(base, cfg) && Weak(base, init, cfg, s)
    ensures var todo := NewWorker(s, cfg, limit).todo;
      forall k :: 0 <= k < |todo| ==> RecordOk(base, cfg, todo[k])
  {
    StillStaged(base, cfg, s.rows);
    var todo := NewWorker(s, cfg, limit).todo;
    forall k | 0 <= k < |todo| ensures RecordOk(base, cfg, todo[k]) {
      SnapshotLimited(s.rows, cfg.job, limit, todo[k]);
      var i :| 0 <= i < |s.rows| && s.rows[i] == todo[k];
    }
  }

  /** What a write adds comes from the good row that is written. */
  lemma WriteWeak(base: seq<Row>, init: multiset<Entity>, cfg: Config, s: System, w: nat)
    requires Weak(base, init, cfg, s) && w < |s.workers| && s.workers[w].todo != []
    ensures Weak(base, init, cfg, WriteStep(s, cfg, w))
  {
    var r, s1 := s.workers[w].todo[0], WriteStep(s, cfg, w);
    assert RecordOk(base, cfg, r);
    assert EntityOf(cfg.d, r) == EntityOf(cfg.d, base[r.id]);
    forall e | e in s1.target ensures e in init || FromGood(base, cfg, e) {
      assert e in s.target || (e == EntityOf(cfg.d, base[r.id]) && Good(cfg, base[r.id]));
    }
  }

  lemma CloseWeak(base: seq<Row>, init: multiset<Entity>, cfg: Config, s: System, w: nat, out: Outcome)
    requires Weak(base, init, cfg, s) && w < |s.workers| && s.workers[w].todo != []
    ensures Weak(base, init, cfg, CloseStep(s, cfg, w, out))
  {
    assert RecordOk(base, cfg, s.workers[w].todo[0]);
  }

  lemma StepWeak(base: seq<Row>, init: multiset<Entity>, cfg: Config, s: System, w: nat)
    requires Weak(base, init, cfg, s) && w < |s.workers| && Live(s.workers[w])
    ensures Weak(base, init, cfg, WorkerStep(s, cfg, w))
  {
    if s.workers[w].todo != [] {
      match s.workers[w].pc
      case Top =>
        if cfg.txn {
          var s1 := WriteStep(s, cfg, w);
          WriteWeak(base, init, cfg, s, w);
          CloseWeak(base, init, cfg, s1, w, s1.workers[w].pc.outcome);
        }
      case Reserved => WriteWeak(base, init, cfg, s, w);
      case Called(out) => CloseWeak(base, init, cfg, s, w, out);
    }
  }

  lemma NextWeak(base: seq<Row>, init: multiset<Entity>, cfg: Config, s: System, e: Event)
    requires Staged(base, cfg) && Weak(base, init, cfg, s)
    ensures Weak(base, init, cfg, Next(s, cfg, e))
  {
    match e
    case Start(limit) => WeakNewWorker(base, init, cfg, s, limit);
    case Restart(limit) => WeakNewWorker(base, init, cfg, s, limit);
    case Crash(w) =>
    case Step(w) => if w < |s.workers| && Live(s.workers[w]) { StepWeak(base, init, cfg, s, w); }
  }

  lemma {:induction false} WeakFrom(base: seq<Row>, init: multiset<Entity>, cfg: Config, s: System, es: seq<Event>)
    requires Staged(base, cfg) && Weak(base, init, cfg, s)
    ensures Weak(base, init, cfg, Exec(s, cfg, es))
  {
    if es != [] {
      WeakFrom(base, init, cfg, s, es[..|es| - 1]);
      NextWeak(base, init, cfg, Exec(s, cfg, es[..|es| - 1]), es[|es| - 1]);
    }
  }

  lemma WeakExec(base: seq<Row>, init: multiset<Entity>, cfg: Config, es: seq<Event>)
    requires Staged(base, cfg)
    ensures Weak(base, init, cfg, Exec(Initial(base, init), cfg, es))
  {
    WeakFrom(base, init, cfg, Initial(base, init), es);
  }

  // ------------------------------------------------------------ coming to a row

  /** Steps that bring worker `w` to its record number `k`. */
  lemma {:induction false} ReachRecord(s: System, cfg: Config, w: nat, k: nat) returns (es: seq<Event>)
    requires w < |s.workers| && s.workers[w].pc.Top? && k <= |s.workers[w].todo|
    ensures forall e :: e in es ==> e == Step(w)
    ensures var s' := Exec(s, cfg, es);
      && |s'.workers| == |s.workers| && s'.workers[w].pc.Top?
      && s'.workers[w].todo == s.workers[w].todo[k..]
      && BatchOf(s', w) == ProcessAll(BatchOf(s, w), cfg.d, cfg.txn, s.workers[w].todo[..k])
    decreases k
  {
    if k == 0 {
      es := [];
    } else {
      var todo := s.workers[w].todo;
      var first := OneRecord(s, cfg, w);
      var rest := ReachRecord(Exec(s, cfg, first), cfg, w, k - 1);
      ExecAppend(s, cfg, first, rest);
      es := first + rest;
      assert todo[1..][k - 1..] == todo[k..] && todo[1..][..k - 1] == todo[..k][1..];
    }
  }

  /** The first run of all has come to its record number `k`. */
  lemma FirstRunTo(base: seq<Row>, init: multiset<Entity>, cfg: Config, k: nat) returns (es: seq<Event>)
    requires k < |Snapshot(base, cfg.job, None)|
    ensures Sequential(es)
    ensures var s := Exec(Initial(base, init), cfg, es); var todo := Snapshot(base, cfg.job, None);
      && s.workers != [] && Last(s).pc.Top? && Last(s).todo != [] && Last(s).todo[0] == todo[k]
      && s.target == ProcessAll(Batch(base, init, 0, 0), cfg.d, cfg.txn, todo[..k]).target
  {
    var s0 := Initial(base, init);
    var s1 := Next(s0, cfg, Restart(None));
    assert s1.workers == [NewWorker(s0, cfg, None)];
    assert BatchOf(s1, 0) == Batch(base, init, 0, 0);
    ExecOne(s0, cfg, Restart(None));
    var steps := ReachRecord(s1, cfg, 0, k);
    ExecAppend(s0, cfg, [Restart(None)], steps);
    es := [Restart(None)] + steps;
  }

  /** What a restarted process does until it comes to record `r`. */
  lemma RestartedTo(s: System, cfg: Config, r: Row) returns (steps: seq<Event>)
    requires Addressed(s.rows) && UniqueRowIndex(s.rows, cfg.job) && r in s.rows && Eligible(r, cfg.job)
    ensures forall e :: e in steps ==> e.Step?
    ensures var s' := Exec(Next(s, cfg, Restart(None)), cfg, steps);
      && s'.workers != [] && Last(s').pc.Top? && Last(s').todo != []
      && Last(s').todo[0] == r && s.target <= s'.target
  {
    SnapshotLimited(s.rows, cfg.job, None, r);
    var todo := Snapshot(s.rows, cfg.job, None);
    var k :| 0 <= k < |todo| && todo[k] == r;
    var s1 := Next(s, cfg, Restart(None));
    var w := |s1.workers| - 1;
    assert s1.workers[w] == NewWorker(s, cfg, None) && BatchOf(s1, w) == Batch(s.rows, s.target, 0, 0);
    steps := ReachRecord(s1, cfg, w, k);
    TargetGrows(Batch(s.rows, s.target, 0, 0), cfg.d, cfg.txn, todo[..k]);
  }

  /** The same, for a row that is still eligible after a history. */
  lemma RestartToRow(base: seq<Row>, init: multiset<Entity>, cfg: Config, es: seq<Event>, i: nat)
    returns (es': seq<Event>)
    requires Staged(base, cfg) && Sequential(es) && i < |base|
    requires var s := Exec(Initial(base, init), cfg, es); i < |s.rows| && Eligible(s.rows[i], cfg.job)
    ensures Sequential(es') && es <= es'
    ensures var s := Exec(Initial(base, init), cfg, es); var s' := Exec(Initial(base, init), cfg, es');
      && s'.workers != [] && Last(s').pc.Top? && Last(s').todo != []
      && Last(s').todo[0] == s.rows[i] && s.target <= s'.target
  {
    var s := Exec(Initial(base, init), cfg, es);
    WeakExec(base, init, cfg, es);
    StillStaged(base, cfg, s.rows);
    var steps := RestartedTo(s, cfg, s.rows[i]);
    ExecThen(Initial(base, init), cfg, es, Restart(None), steps);
    SequentialThen(es, steps);
    es' := es + [Restart(None)] + steps;
  }
}
