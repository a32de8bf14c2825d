/** Overlapping runs that all come to their end leave no row to commit. */
module CommitQuiet {
  import opened Wrappers
  import opened StagedRows
  import opened JobStore
  import opened CommitEngine
  import opened CommitProtocol
  import opened CommitSafety

  /** The run has row `i` in hand, or died with it. */
  ghost predicate Holds(w: Worker, i: nat) {
    w.todo != [] && w.todo[0].id == i && (w.pc.Reserved? || w.pc.Called? || w.pc.Dead?)
  }

  ghost predicate Held(s: System, i: nat) {
    exists k :: 0 <= k < |s.workers| && Holds(s.workers[k], i)
  }

  /** A reserved row is in somebody's hand, and a pending row is still to come in every
      full run that goes on. */
  ghost predicate Quiet(cfg: Config, s: System) {
    && (forall i :: 0 <= i < |s.rows| && Mine(s.rows[i], cfg.job) && s.rows[i].commit.Committing? ==> Held(s, i))
    && (forall k :: 0 <= k < |s.workers| && s.workers[k].full && !s.workers[k].pc.Dead? ==>
          PendingIn(cfg, s.rows, s.workers[k].todo))
  }

  ghost predicate PendingIn(cfg: Config, rows: seq<Row>, todo: seq<Row>) {
    forall i :: 0 <= i < |rows| && Mine(rows[i], cfg.job) && rows[i].commit.Pending? ==>
      exists k :: 0 <= k < |todo| && todo[k].id == i
  }

  /** Worker `w` has become `me`; whoever else held a row still does. */
  lemma StillHeld(s: System, s': System, w: nat, i: nat)
    requires w < |s.workers| == |s'.workers| && Held(s, i)
    requires forall k :: 0 <= k < |s.workers| && k != w ==> s'.workers[k] == s.workers[k]
    requires Holds(s.workers[w], i) ==> Holds(s'.workers[w], i)
    ensures Held(s', i)
  {
    var k :| 0 <= k < |s.workers| && Holds(s.workers[k], i);
    assert Holds(s'.workers[k], i);
  }

  lemma StartQuiet(base: seq<Row>, init: multiset<Entity>, cfg: Config, s: System, limit: Option<nat>)
    requires Inv(base, init, cfg, s)
    ensures var w := NewWorker(s, cfg, limit); w.full ==> PendingIn(cfg, s.rows, w.todo)
  {
    forall i | 0 <= i < |base| ensures SameContent(s.rows[i], base[i]) {
      assert RowOk(cfg, base[i], s.rows[i], i in s.written);
    }
    StillStaged(base, cfg, s.rows);
    var w := NewWorker(s, cfg, limit);
    if w.full {
      forall i | 0 <= i < |s.rows| && Mine(s.rows[i], cfg.job) && s.rows[i].commit.Pending?
        ensures exists k :: 0 <= k < |w.todo| && w.todo[k].id == i
      {
        SnapshotLimited(s.rows, cfg.job, limit, s.rows[i]);
        var k :| 0 <= k < |w.todo| && w.todo[k] == s.rows[i];
      }
    }
  }

  /** More workers, some of them dead now. */
  lemma MoreQuiet(base: seq<Row>, init: multiset<Entity>, cfg: Config, s: System, ws: seq<Worker>, limit: Option<nat>)
    requires Inv(base, init, cfg, s) && Quiet(cfg, s)
    requires ws == s.workers || ws == KillAll(s.workers)
    ensures Quiet(cfg, s.(workers := ws + [NewWorker(s, cfg, limit)]))
  {
    StartQuiet(base, init, cfg, s, limit);
    var s1 := s.(workers := ws + [NewWorker(s, cfg, limit)]);
    forall i | 0 <= i < |s.rows| && Held(s, i) ensures Held(s1, i) {
      var k :| 0 <= k < |s.workers| && Holds(s.workers[k], i);
      assert Holds(s1.workers[k], i);
    }
    forall k | 0 <= k < |s1.workers| && s1.workers[k].full && !s1.workers[k].pc.Dead?
      ensures PendingIn(cfg, s.rows, s1.workers[k].todo)
    {
    }
  }

  lemma CrashQuiet(cfg: Config, s: System, w: nat)
    requires Quiet(cfg, s) && w < |s.workers|
    ensures Quiet(cfg, s.(workers := s.workers[w := Kill(s.workers[w])]))
  {
    var s1 := s.(workers := s.workers[w := Kill(s.workers[w])]);
    forall i | 0 <= i < |s.rows| && Held(s, i) ensures Held(s1, i) {
      StillHeld(s, s1, w, i);
    }
  }

  /** Rows and hands change at one row only: the head of what worker `w` has to do. */
  ghost predicate OneRowMoves(s: System, s': System, w: nat)
    requires w < |s.workers| && s.workers[w].todo != []
  {
    var id := s.workers[w].todo[0].id;
    && |s'.workers| == |s.workers| && |s'.rows| == |s.rows|
    && (forall k :: 0 <= k < |s.workers| && k != w ==> s'.workers[k] == s.workers[k])
    && (forall i :: 0 <= i < |s.rows| && i != id ==> s'.rows[i] == s.rows[i])
    && s'.workers[w].full == s.workers[w].full && !s'.workers[w].pc.Dead?
  }

  /** A step that leaves the row in hand, reserved or as it was. */
  lemma KeptQuiet(cfg: Config, s: System, s': System, w: nat)
    requires Quiet(cfg, s) && w < |s.workers| && Live(s.workers[w]) && s.workers[w].todo != []
    requires OneRowMoves(s, s', w) && s'.workers[w].todo == s.workers[w].todo
    requires s'.workers[w].pc.Reserved? || s'.workers[w].pc.Called?
    requires var id := s.workers[w].todo[0].id;
      id < |s.rows| ==> s'.rows[id] == s.rows[id] || s'.rows[id] == Patched(s.rows[id], Reserve)
    ensures Quiet(cfg, s')
  {
    var id := s.workers[w].todo[0].id;
    assert Holds(s'.workers[w], id);
    forall i | 0 <= i < |s'.rows| && Mine(s'.rows[i], cfg.job) && s'.rows[i].commit.Committing?
      ensures Held(s', i)
    {
      if i != id { StillHeld(s, s', w, i); }
    }
    forall k | 0 <= k < |s'.workers| && s'.workers[k].full && !s'.workers[k].pc.Dead?
      ensures PendingIn(cfg, s'.rows, s'.workers[k].todo)
    {
      assert PendingIn(cfg, s.rows, s.workers[k].todo);
    }
  }

  /** A step that puts the row down, with its final status. */
  lemma DoneQuiet(cfg: Config, s: System, s': System, w: nat)
    requires Quiet(cfg, s) && w < |s.workers| && Live(s.workers[w]) && s.workers[w].todo != []
    requires OneRowMoves(s, s', w) && s'.workers[w].todo == s.workers[w].todo[1..]
    requires var id := s.workers[w].todo[0].id;
      id < |s.rows| ==> s'.rows[id].commit.Committed? || s'.rows[id].commit.Failed?
    ensures Quiet(cfg, s')
  {
    var id := s.workers[w].todo[0].id;
    forall i | 0 <= i < |s'.rows| && Mine(s'.rows[i], cfg.job) && s'.rows[i].commit.Committing?
      ensures Held(s', i)
    {
      StillHeld(s, s', w, i);
    }
    forall k | 0 <= k < |s'.workers| && s'.workers[k].full && !s'.workers[k].pc.Dead?
      ensures PendingIn(cfg, s'.rows, s'.workers[k].todo)
    {
      assert PendingIn(cfg, s.rows, s.workers[k].todo);
      PoppedPending(cfg, s.rows, s'.rows, s.workers[k].todo, s'.workers[k].todo, id);
    }
  }

  lemma PoppedPending(cfg: Config, rows: seq<Row>, rows': seq<Row>, todo: seq<Row>, todo': seq<Row>, id: nat)
    requires PendingIn(cfg, rows, todo) && |rows'| == |rows|
    requires forall i :: 0 <= i < |rows| && i != id ==> rows'[i] == rows[i]
    requires id < |rows| ==> !rows'[id].commit.Pending?
    requires todo' == todo || (todo != [] && todo[0].id == id && todo' == todo[1..])
    ensures PendingIn(cfg, rows', todo')
  {
    forall i | 0 <= i < |rows'| && Mine(rows'[i], cfg.job) && rows'[i].commit.Pending?
      ensures exists k :: 0 <= k < |todo'| && todo'[k].id == i
    {
      var k :| 0 <= k < |todo| && todo[k].id == i;
      if todo' != todo { assert todo'[k - 1] == todo[k]; }
    }
  }

  /** A close, alone or in one step with the write. */
  lemma CloseQuiet(cfg: Config, s: System, w: nat, s0: System, out: Outcome)
    requires Quiet(cfg, s) && w < |s.workers| && Live(s.workers[w]) && s.workers[w].todo != []
    requires s0.rows == s.rows && |s0.workers| == |s.workers|
    requires forall k :: 0 <= k < |s.workers| && k != w ==> s0.workers[k] == s.workers[k]
    requires s0.workers[w].todo == s.workers[w].todo && s0.workers[w].full == s.workers[w].full
    ensures Quiet(cfg, CloseStep(s0, cfg, w, out))
  {
    DoneQuiet(cfg, s, CloseStep(s0, cfg, w, out), w);
  }

  lemma StepQuiet(base: seq<Row>, init: multiset<Entity>, cfg: Config, s: System, w: nat)
    requires Inv(base, init, cfg, s) && Quiet(cfg, s) && w < |s.workers| && Live(s.workers[w])
    ensures Quiet(cfg, WorkerStep(s, cfg, w))
  {
    var me, s1 := s.workers[w], WorkerStep(s, cfg, w);
    if me.todo == [] {
      forall i | 0 <= i < |s.rows| && Held(s, i) ensures Held(s1, i) {
        StillHeld(s, s1, w, i);
      }
    } else {
      match me.pc
      case Top =>
        if cfg.txn {
          var s2 := WriteStep(s, cfg, w);
          if s2.workers[w].pc.outcome.Written? {
            CloseQuiet(cfg, s, w, s2, s2.workers[w].pc.outcome);
          } else {
            KeptQuiet(cfg, s, s2, w);
          }
        } else {
          KeptQuiet(cfg, s, s1, w);
        }
      case Reserved => KeptQuiet(cfg, s, s1, w);
      case Called(out) => CloseQuiet(cfg, s, w, s, out);
    }
  }

  lemma NextQuiet(base: seq<Row>, init: multiset<Entity>, cfg: Config, s: System, e: Event)
    requires Inv(base, init, cfg, s) && Quiet(cfg, s)
    ensures Quiet(cfg, Next(s, cfg, e))
  {
    match e
    case Start(limit) => MoreQuiet(base, init, cfg, s, s.workers, limit);
    case Restart(limit) => MoreQuiet(base, init, cfg, s, KillAll(s.workers), limit);
    case Crash(w) => if w < |s.workers| { CrashQuiet(cfg, s, w); }
    case Step(w) => if w < |s.workers| && Live(s.workers[w]) { StepQuiet(base, init, cfg, s, w); }
  }

  lemma {:induction false} ExecQuiet(base: seq<Row>, init: multiset<Entity>, cfg: Config, es: seq<Event>)
    requires Guarded(base, init, cfg)
    ensures Quiet(cfg, Exec(Initial(base, init), cfg, es))
  {
    if es != [] {
      var n := |es| - 1;
      ExecQuiet(base, init, cfg, es[..n]);
      ExecOk(base, init, cfg, es[..n]);
      NextQuiet(base, init, cfg, Exec(Initial(base, init), cfg, es[..n]), es[n]);
    }
  }

  /** If every run that was started has come to its end, and one of them took in every
      eligible row, then every valid row has a final status. */
  lemma AllFinishedLeavesNone(base: seq<Row>, init: multiset<Entity>, cfg: Config, es: seq<Event>)
    requires Guarded(base, init, cfg)
    requires var s := Exec(Initial(base, init), cfg, es);
      HasCompleteRun(s) && forall k :: 0 <= k < |s.workers| ==> s.workers[k].pc.Finished?
    ensures var s := Exec(Initial(base, init), cfg, es);
      |s.rows| == |base| && forall i :: 0 <= i < |base| ==> !Eligible(s.rows[i], cfg.job)
  {
    ExecQuiet(base, init, cfg, es);
    ExecOk(base, init, cfg, es);
    var s := Exec(Initial(base, init), cfg, es);
    var k :| 0 <= k < |s.workers| && s.workers[k].full && s.workers[k].pc.Finished?;
    assert WorkerOk(base, cfg, s.written, s.workers[k]);
    assert PendingIn(cfg, s.rows, []);
    forall i | 0 <= i < |base| ensures !Held(s, i) {
    }
  }
}
