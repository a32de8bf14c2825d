/** What the marker `committed` is worth. The engine reads any duplicate-key error on a
    reserved row as that row's own earlier write. Without a transaction that is right
    exactly when no refusal looks like a duplicate key and no good row finds its
    identity taken by somebody else. */
module CommitMarker {
  import opened Wrappers
  import opened StagedRows
  import opened JobStore
  import opened CommitEngine
  import opened CommitBatches
  import opened CommitProtocol
  import opened CommitSafety
  import opened CommitRecovery
  import opened CommitConvergence
  import opened CommitReach

  /** A row marked committed has its entity in the target. */
  ghost predicate CommittedMeansWritten(base: seq<Row>, init: multiset<Entity>, cfg: Config, es: seq<Event>) {
    var s := Exec(Initial(base, init), cfg, es);
    forall i :: 0 <= i < |base| && i < |s.rows| && Mine(base[i], cfg.job) && s.rows[i].commit.Committed?
      ==> EntityOf(cfg.d, base[i]) in s.target
  }

  /** When it can be relied on. */
  ghost predicate MarkerSafe(base: seq<Row>, init: multiset<Entity>, cfg: Config) {
    cfg.txn || (NoLookalike(base, cfg) && RoomForAll(base, init, cfg))
  }

  // ------------------------------------------------------ the marker is reliable

  ghost predicate OutcomeTells(cfg: Config, target: multiset<Entity>, r: Row, out: Outcome) {
    out.Written? || (!cfg.txn && IsDuplicateKeyError(out.error)) ==> EntityOf(cfg.d, r) in target
  }

  ghost predicate MarkerInv(base: seq<Row>, init: multiset<Entity>, cfg: Config, s: System) {
    && Weak(base, init, cfg, s)
    && (forall i :: 0 <= i < |base| && Mine(base[i], cfg.job) && s.rows[i].commit.Committed?
          ==> EntityOf(cfg.d, base[i]) in s.target)
    && (forall w :: 0 <= w < |s.workers| && s.workers[w].pc.Called? ==>
          s.workers[w].todo != [] && OutcomeTells(cfg, s.target, s.workers[w].todo[0], s.workers[w].pc.outcome))
  }

  /** A duplicate key on a good row stems from that row's own entity. */
  lemma DuplicateIsOwnEntity(base: seq<Row>, init: multiset<Entity>, cfg: Config, s: System, r: Row)
    requires Weak(base, init, cfg, s) && RoomForAll(base, init, cfg) && cfg.d.uniqueIndex
    requires RecordOk(base, cfg, r) && Accepts(cfg.d, r) && Taken(s.target, cfg.d, r)
    ensures EntityOf(cfg.d, r) in s.target
  {
    var e :| e in s.target && Identity(cfg.d, e.fields) == Identity(cfg.d, r.mappedFields);
    assert Good(cfg, base[r.id]) && !Taken(init, cfg.d, base[r.id]);
    assert FromGood(base, cfg, e);
    var k :| 0 <= k < |base| && Good(cfg, base[k]) && EntityOf(cfg.d, base[k]) == e;
    assert Clash(cfg.d, base[k], base[r.id]) && Clash(cfg.d, base[r.id], base[k]);
    assert k == r.id;
  }

  lemma WriteTells(base: seq<Row>, init: multiset<Entity>, cfg: Config, s: System, r: Row)
    requires Weak(base, init, cfg, s) && MarkerSafe(base, init, cfg) && RecordOk(base, cfg, r)
    ensures var (out, target) := CommitRow(s.target, cfg.d, r);
      OutcomeTells(cfg, target, r, out) && s.target <= target
  {
    if !cfg.txn {
      assert !Lookalike(cfg, base[r.id]) && Lookalike(cfg, r) == Lookalike(cfg, base[r.id]);
      if Accepts(cfg.d, r) && cfg.d.uniqueIndex && Taken(s.target, cfg.d, r) {
        DuplicateIsOwnEntity(base, init, cfg, s, r);
      }
    }
  }

  lemma WriteMarks(base: seq<Row>, init: multiset<Entity>, cfg: Config, s: System, w: nat)
    requires MarkerInv(base, init, cfg, s) && MarkerSafe(base, init, cfg)
    requires w < |s.workers| && s.workers[w].todo != []
    ensures MarkerInv(base, init, cfg, WriteStep(s, cfg, w))
  {
    assert RecordOk(base, cfg, s.workers[w].todo[0]);
    WriteTells(base, init, cfg, s, s.workers[w].todo[0]);
    WriteWeak(base, init, cfg, s, w);
  }

  lemma CloseMarks(base: seq<Row>, init: multiset<Entity>, cfg: Config, s: System, w: nat)
    requires MarkerInv(base, init, cfg, s) && w < |s.workers| && s.workers[w].pc.Called?
    ensures MarkerInv(base, init, cfg, CloseStep(s, cfg, w, s.workers[w].pc.outcome))
  {
    var r := s.workers[w].todo[0];
    CloseWeak(base, init, cfg, s, w, s.workers[w].pc.outcome);
    assert RecordOk(base, cfg, r);
    assert EntityOf(cfg.d, r) == EntityOf(cfg.d, base[r.id]);
  }

  lemma StepMarks(base: seq<Row>, init: multiset<Entity>, cfg: Config, s: System, w: nat)
    requires MarkerInv(base, init, cfg, s) && MarkerSafe(base, init, cfg)
    requires w < |s.workers| && Live(s.workers[w])
    ensures MarkerInv(base, init, cfg, WorkerStep(s, cfg, w))
  {
    StepWeak(base, init, cfg, s, w);
    if s.workers[w].todo != [] {
      match s.workers[w].pc
      case Top =>
        if cfg.txn {
          WriteMarks(base, init, cfg, s, w);
          CloseMarks(base, init, cfg, WriteStep(s, cfg, w), w);
        }
      case Reserved => WriteMarks(base, init, cfg, s, w);
      case Called(_) => CloseMarks(base, init, cfg, s, w);
    }
  }

  lemma NextMarks(base: seq<Row>, init: multiset<Entity>, cfg: Config, s: System, e: Event)
    requires Staged(base, cfg) && MarkerInv(base, init, cfg, s) && MarkerSafe(base, init, cfg)
    ensures MarkerInv(base, init, cfg, Next(s, cfg, e))
  {
    NextWeak(base, init, cfg, s, e);
    match e
    case Step(w) => if w < |s.workers| && Live(s.workers[w]) { StepMarks(base, init, cfg, s, w); }
    case _ =>
  }

  lemma {:induction false} ExecMarks(base: seq<Row>, init: multiset<Entity>, cfg: Config, es: seq<Event>)
    requires Staged(base, cfg) && MarkerSafe(base, init, cfg)
    ensures MarkerInv(base, init, cfg, Exec(Initial(base, init), cfg, es))
  {
    if es != [] {
      var n := |es| - 1;
      ExecMarks(base, init, cfg, es[..n]);
      NextMarks(base, init, cfg, Exec(Initial(base, init), cfg, es[..n]), es[n]);
    }
  }

  // -------------------------------------------------------- and when it is not

  /** The write of the row is stopped, and the error reads as a duplicate key. */
  ghost predicate LooksTaken(cfg: Config, target: multiset<Entity>, r: Row) {
    Lookalike(cfg, r) || (Good(cfg, r) && cfg.d.uniqueIndex && Taken(target, cfg.d, r))
  }

  /** A record that was reserved when read and looks taken is marked committed. */
  lemma CloseAsCommitted(s: System, cfg: Config, r: Row) returns (steps: seq<Event>)
    requires s.workers != [] && Last(s).pc.Top? && Last(s).todo != [] && Last(s).todo[0] == r
    requires !cfg.txn && r.id < |s.rows| && r.commit.Committing? && LooksTaken(cfg, s.target, r)
    ensures forall e :: e in steps ==> e.Step?
    ensures var s' := Exec(s, cfg, steps); r.id < |s'.rows| && s'.rows[r.id].commit.Committed?
  {
    LooksTakenCloses(s, cfg, r);
    steps := OneRecord(s, cfg, |s.workers| - 1);
  }

  lemma LooksTakenCloses(s: System, cfg: Config, r: Row)
    requires !cfg.txn && r.id < |s.rows| && r.commit.Committing? && LooksTaken(cfg, s.target, r)
    ensures forall c: nat, f: nat ::
      var b := ProcessRow(Batch(s.rows, s.target, c, f), cfg.d, false, r);
      |b.rows| == |s.rows| && b.rows[r.id].commit.Committed?
  {
  }

  /** What looks taken still does when the target has grown. */
  lemma StillLooksTaken(cfg: Config, target: multiset<Entity>, more: multiset<Entity>, b: Row, r: Row)
    requires LooksTaken(cfg, target, b) && target <= more && SameContent(r, b)
    ensures LooksTaken(cfg, more, r)
  {
    if !Lookalike(cfg, b) {
      var e :| e in target && Identity(cfg.d, e.fields) == Identity(cfg.d, b.mappedFields);
      assert e in more;
    }
  }

  /** A row that was reserved before a crash and looks taken ends so after the restart. */
  lemma ReservedCloses(base: seq<Row>, init: multiset<Entity>, cfg: Config, es: seq<Event>, i: nat)
    returns (es': seq<Event>)
    requires Staged(base, cfg) && Sequential(es) && !cfg.txn && i < |base|
    requires var s := Exec(Initial(base, init), cfg, es);
      && i < |s.rows| && s.rows[i].commit.Committing? && Eligible(s.rows[i], cfg.job)
      && LooksTaken(cfg, s.target, base[i])
    ensures Sequential(es') && es <= es'
    ensures var s := Exec(Initial(base, init), cfg, es'); i < |s.rows| && s.rows[i].commit.Committed?
  {
    var s0 := Initial(base, init);
    var es1 := RestartToRow(base, init, cfg, es, i);
    WeakExec(base, init, cfg, es);
    WeakExec(base, init, cfg, es1);
    var s, s1 := Exec(s0, cfg, es), Exec(s0, cfg, es1);
    StillLooksTaken(cfg, s.target, s1.target, base[i], s.rows[i]);
    var steps := CloseAsCommitted(s1, cfg, s.rows[i]);
    ExecAppend(s0, cfg, es1, steps);
    es' := es1 + steps;
  }

  /** The worker at the head of its list reserves the record there. */
  lemma ReserveHere(base: seq<Row>, init: multiset<Entity>, cfg: Config, s: System)
    requires Staged(base, cfg) && Weak(base, init, cfg, s) && !cfg.txn
    requires s.workers != [] && Last(s).pc.Top? && Last(s).todo != []
    ensures var s' := Next(s, cfg, Step(|s.workers| - 1)); var i := Last(s).todo[0].id;
      && i < |base| && |s'.rows| == |base| && s'.target == s.target
      && s'.rows[i].commit.Committing? && Eligible(s'.rows[i], cfg.job)
  {
    var r := s.workers[|s.workers| - 1].todo[0];
    assert RecordOk(base, cfg, r) && SameContent(s.rows[r.id], base[r.id]);
    assert Next(s, cfg, Step(|s.workers| - 1)).rows == Update(s.rows, r.id, Reserve);
  }

  /** The first run has dealt with all records before number `k`, and has died just
      after reserving that one. */
  lemma ReservedThenCut(base: seq<Row>, init: multiset<Entity>, cfg: Config, k: nat) returns (es: seq<Event>)
    requires Staged(base, cfg) && !cfg.txn && k < |Snapshot(base, cfg.job, None)|
    ensures Sequential(es)
    ensures var s := Exec(Initial(base, init), cfg, es); var todo := Snapshot(base, cfg.job, None);
      && todo[k].id < |base| && |s.rows| == |base|
      && s.rows[todo[k].id].commit.Committing? && Eligible(s.rows[todo[k].id], cfg.job)
      && s.target == ProcessAll(Batch(base, init, 0, 0), cfg.d, false, todo[..k]).target
  {
    var es1 := FirstRunTo(base, init, cfg, k);
    var s1 := Exec(Initial(base, init), cfg, es1);
    WeakExec(base, init, cfg, es1);
    ReserveHere(base, init, cfg, s1);
    ExecSnoc(Initial(base, init), cfg, es1, Step(|s1.workers| - 1));
    es := es1 + [Step(|s1.workers| - 1)];
  }

  /** Where the record of row `i` stands in the first snapshot. */
  lemma Position(base: seq<Row>, cfg: Config, i: nat) returns (k: nat)
    requires Staged(base, cfg) && i < |base| && Mine(base[i], cfg.job)
    ensures k < |Snapshot(base, cfg.job, None)| && Snapshot(base, cfg.job, None)[k] == base[i]
  {
    SnapshotRecords(base, cfg.job);
    k :| 0 <= k < |Snapshot(base, cfg.job, None)| && Snapshot(base, cfg.job, None)[k] == base[i];
  }

  /** One crash between reserving a lookalike row and writing it is enough for the
      next run to mark it committed with nothing written. */
  lemma LookalikeIsLost(base: seq<Row>, init: multiset<Entity>, cfg: Config, i: nat) returns (es: seq<Event>)
    requires Staged(base, cfg) && !cfg.txn && i < |base| && Lookalike(cfg, base[i])
    ensures Sequential(es)
    ensures var s := Exec(Initial(base, init), cfg, es);
      && i < |s.rows| && s.rows[i].commit.Committed?
      && (FreshRefs(base, init, cfg.d) ==> EntityOf(cfg.d, base[i]) !in s.target)
  {
    var k := Position(base, cfg, i);
    var es1 := ReservedThenCut(base, init, cfg, k);
    es := ReservedCloses(base, init, cfg, es1, i);
    WeakExec(base, init, cfg, es);
    if FreshRefs(base, init, cfg.d) { NotFromOthers(base, init, cfg, Exec(Initial(base, init), cfg, es), i); }
  }

  /** An entity in the target that is not an old one is that of a good row. */
  lemma NotFromOthers(base: seq<Row>, init: multiset<Entity>, cfg: Config, s: System, i: nat)
    requires Weak(base, init, cfg, s) && FreshRefs(base, init, cfg.d) && Addressed(base)
    requires i < |base| && !Good(cfg, base[i])
    ensures EntityOf(cfg.d, base[i]) !in s.target
  {
    var x := EntityOf(cfg.d, base[i]);
    assert x !in init;
    forall k | 0 <= k < |base| && Good(cfg, base[k]) ensures EntityOf(cfg.d, base[k]) != x {
      OtherRef(base, init, cfg.d, k, i);
    }
    assert !FromGood(base, cfg, x);
  }

  lemma OtherRef(base: seq<Row>, init: multiset<Entity>, d: Descriptor, k: nat, i: nat)
    requires Addressed(base) && FreshRefs(base, init, d) && k < |base| && i < |base| && k != i
    ensures EntityOf(d, base[k]) != EntityOf(d, base[i])
  {
    assert d.refOf(k) != d.refOf(i);
  }

  // ------------------------------------------- an identity that is taken stays out

  /** The identity of row `i` is taken, and not by its own entity. */
  ghost predicate ShutOut(cfg: Config, target: multiset<Entity>, b: Row) {
    cfg.d.uniqueIndex && Taken(target, cfg.d, b) && EntityOf(cfg.d, b) !in target
  }

  lemma WriteShutsOut(base: seq<Row>, init: multiset<Entity>, cfg: Config, s: System, w: nat, i: nat)
    requires Weak(base, init, cfg, s) && FreshRefs(base, init, cfg.d) && Addressed(base) && i < |base|
    requires ShutOut(cfg, s.target, base[i]) && w < |s.workers| && s.workers[w].todo != []
    ensures ShutOut(cfg, WriteStep(s, cfg, w).target, base[i])
  {
    var r := s.workers[w].todo[0];
    assert RecordOk(base, cfg, r);
    assert EntityOf(cfg.d, r) == EntityOf(cfg.d, base[r.id]);
    if r.id == i {
      assert Taken(s.target, cfg.d, r);
    } else {
      OtherRef(base, init, cfg.d, r.id, i);
    }
    var e :| e in s.target && Identity(cfg.d, e.fields) == Identity(cfg.d, base[i].mappedFields);
    assert e in WriteStep(s, cfg, w).target;
  }

  lemma NextShutsOut(base: seq<Row>, init: multiset<Entity>, cfg: Config, s: System, e: Event, i: nat)
    requires Weak(base, init, cfg, s) && FreshRefs(base, init, cfg.d) && Addressed(base) && i < |base|
    requires ShutOut(cfg, s.target, base[i])
    ensures ShutOut(cfg, Next(s, cfg, e).target, base[i])
  {
    if e.Step? && e.w < |s.workers| && Live(s.workers[e.w]) && s.workers[e.w].todo != [] {
      if s.workers[e.w].pc.Reserved? || (s.workers[e.w].pc.Top? && cfg.txn) {
        WriteShutsOut(base, init, cfg, s, e.w, i);
      }
    }
  }

  lemma {:induction false} StaysOut(base: seq<Row>, init: multiset<Entity>, cfg: Config, s: System, es: seq<Event>,
                                    i: nat)
    requires Staged(base, cfg) && Weak(base, init, cfg, s) && FreshRefs(base, init, cfg.d) && i < |base|
    requires ShutOut(cfg, s.target, base[i])
    ensures ShutOut(cfg, Exec(s, cfg, es).target, base[i])
  {
    if es != [] {
      var n := |es| - 1;
      StaysOut(base, init, cfg, s, es[..n], i);
      WeakFrom(base, init, cfg, s, es[..n]);
      NextShutsOut(base, init, cfg, Exec(s, cfg, es[..n]), es[n], i);
    }
  }

  /** A good row that comes to be shut out in the first run, and is reserved there when
      it dies, ends as committed without its entity. */
  lemma ShutOutIsLost(base: seq<Row>, init: multiset<Entity>, cfg: Config, k: nat) returns (es: seq<Event>)
    requires Staged(base, cfg) && !cfg.txn && FreshRefs(base, init, cfg.d)
    requires var todo := Snapshot(base, cfg.job, None);
      && k < |todo| && todo[k].id < |base| && base[todo[k].id] == todo[k] && Good(cfg, todo[k])
      && ShutOut(cfg, ProcessAll(Batch(base, init, 0, 0), cfg.d, false, todo[..k]).target, todo[k])
    ensures Sequential(es)
    ensures var s := Exec(Initial(base, init), cfg, es); var i := Snapshot(base, cfg.job, None)[k].id;
      i < |s.rows| && s.rows[i].commit.Committed? && EntityOf(cfg.d, base[i]) !in s.target
  {
    var i := Snapshot(base, cfg.job, None)[k].id;
    var es1 := ReservedThenCut(base, init, cfg, k);
    es := ReservedCloses(base, init, cfg, es1, i);
    var more := es[|es1|..];
    assert es == es1 + more;
    ExecAppend(Initial(base, init), cfg, es1, more);
    WeakExec(base, init, cfg, es1);
    StaysOut(base, init, cfg, Exec(Initial(base, init), cfg, es1), more, i);
  }

  /** A good row whose identity the target already has: one crash after its
      reservation, and somebody else's entity passes for its own. */
  lemma PresentIsLost(base: seq<Row>, init: multiset<Entity>, cfg: Config, i: nat) returns (es: seq<Event>)
    requires Staged(base, cfg) && !cfg.txn && FreshRefs(base, init, cfg.d) && cfg.d.uniqueIndex
    requires i < |base| && Good(cfg, base[i]) && Taken(init, cfg.d, base[i])
    ensures Sequential(es)
    ensures var s := Exec(Initial(base, init), cfg, es);
      i < |s.rows| && s.rows[i].commit.Committed? && EntityOf(cfg.d, base[i]) !in s.target
  {
    var k := Position(base, cfg, i);
    var b, todo := Batch(base, init, 0, 0), Snapshot(base, cfg.job, None);
    TargetGrows(b, cfg.d, false, todo[..k]);
    BeforeItsTurn(base, init, cfg, k);
    es := ShutOutIsLost(base, init, cfg, k);
  }

  /** Before its turn a row has no entity. */
  lemma BeforeItsTurn(base: seq<Row>, init: multiset<Entity>, cfg: Config, k: nat)
    requires Staged(base, cfg) && FreshRefs(base, init, cfg.d) && k < |Snapshot(base, cfg.job, None)|
    ensures var todo := Snapshot(base, cfg.job, None);
      EntityOf(cfg.d, todo[k]) !in ProcessAll(Batch(base, init, 0, 0), cfg.d, cfg.txn, todo[..k]).target
  {
    SnapshotRecords(base, cfg.job);
    var todo := Snapshot(base, cfg.job, None);
    forall l | 0 <= l < k ensures EntityOf(cfg.d, todo[..k][l]) != EntityOf(cfg.d, todo[k]) {
      OtherRef(base, init, cfg.d, todo[l].id, todo[k].id);
    }
    NotAdded(Batch(base, init, 0, 0), cfg.d, cfg.txn, todo[..k], EntityOf(cfg.d, todo[k]));
  }

  /** Of two good rows with one identity, the later one in the order of the run. */
  lemma LaterIsLost(base: seq<Row>, init: multiset<Entity>, cfg: Config, k: nat, l: nat) returns (es: seq<Event>)
    requires Staged(base, cfg) && !cfg.txn && FreshRefs(base, init, cfg.d) && cfg.d.uniqueIndex
    requires var todo := Snapshot(base, cfg.job, None);
      && k < l < |todo| && Good(cfg, todo[k]) && Good(cfg, todo[l]) && Clash(cfg.d, todo[k], todo[l])
    ensures Sequential(es)
    ensures var s := Exec(Initial(base, init), cfg, es); var r := Snapshot(base, cfg.job, None)[l];
      && r.id < |base| && base[r.id] == r
      && r.id < |s.rows| && s.rows[r.id].commit.Committed? && EntityOf(cfg.d, r) !in s.target
  {
    var todo := Snapshot(base, cfg.job, None);
    SnapshotRecords(base, cfg.job);
    TakenAfter(Batch(base, init, 0, 0), cfg.d, false, todo[..l], k);
    BeforeItsTurn(base, init, cfg, l);
    es := ShutOutIsLost(base, init, cfg, l);
  }

  /** Two good rows that share an identity: a crash after the reservation of the later
      one, and the earlier one's entity passes for both. */
  lemma ClashIsLost(base: seq<Row>, init: multiset<Entity>, cfg: Config, i: nat, j: nat)
    returns (es: seq<Event>, lost: nat)
    requires Staged(base, cfg) && !cfg.txn && FreshRefs(base, init, cfg.d) && cfg.d.uniqueIndex
    requires i < |base| && j < |base| && i != j
    requires Good(cfg, base[i]) && Good(cfg, base[j]) && Clash(cfg.d, base[i], base[j])
    ensures Sequential(es) && (lost == i || lost == j)
    ensures var s := Exec(Initial(base, init), cfg, es);
      lost < |s.rows| && s.rows[lost].commit.Committed? && EntityOf(cfg.d, base[lost]) !in s.target
  {
    var k := Position(base, cfg, i);
    var l := Position(base, cfg, j);
    if k < l {
      es := LaterIsLost(base, init, cfg, k, l);
      lost := j;
    } else {
      es := LaterIsLost(base, init, cfg, l, k);
      lost := i;
    }
  }

  // ---------------------------------------------------------------- the theorem

  lemma UnsafeMarkerFails(base: seq<Row>, init: multiset<Entity>, cfg: Config) returns (es: seq<Event>)
    requires Staged(base, cfg) && FreshRefs(base, init, cfg.d) && !MarkerSafe(base, init, cfg)
    ensures Sequential(es) && !CommittedMeansWritten(base, init, cfg, es)
  {
    if !NoLookalike(base, cfg) {
      var i :| 0 <= i < |base| && Lookalike(cfg, base[i]);
      es := LookalikeIsLost(base, init, cfg, i);
    } else if i :| 0 <= i < |base| && Good(cfg, base[i]) && Taken(init, cfg.d, base[i]) {
      es := PresentIsLost(base, init, cfg, i);
    } else {
      var i, j :| 0 <= i < j < |base| && Good(cfg, base[i]) && Good(cfg, base[j]) && Clash(cfg.d, base[i], base[j]);
      var lost;
      es, lost := ClashIsLost(base, init, cfg, i, j);
    }
  }

  /** Committed means written, after all crash histories and also under all overlaps, if
      and only if each write is one transaction with its status flip, or no refusal
      looks like a duplicate key and a unique index has room for every good row. */
  lemma CommittedMeansWrittenIff(base: seq<Row>, init: multiset<Entity>, cfg: Config)
    requires Staged(base, cfg) && FreshRefs(base, init, cfg.d)
    ensures (forall es :: Sequential(es) ==> CommittedMeansWritten(base, init, cfg, es))
        <==> MarkerSafe(base, init, cfg)
    ensures (forall es :: CommittedMeansWritten(base, init, cfg, es)) <==> MarkerSafe(base, init, cfg)
  {
    if MarkerSafe(base, init, cfg) {
      forall es ensures CommittedMeansWritten(base, init, cfg, es) {
        ExecMarks(base, init, cfg, es);
      }
    } else {
      var es := UnsafeMarkerFails(base, init, cfg);
    }
  }
}
