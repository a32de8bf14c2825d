/** Queue workers whose chunk loops overlap on one import: the queue may deliver a job
    twice, and a loop may die and be started again. */
module ChunkLoops {
  import opened Wrappers
  import opened StagedRows
  import opened CommitEngine
  import opened CommitProtocol
  import opened CommitSafety
  import opened CommitConvergence
  import opened CommitWorker
  import opened CommitQuiet
  import opened CommitOverlap

  /** `current` names, for each loop, the run of its present chunk. */
  datatype Loops = Loops(s: System, current: seq<nat>)

  /** A loop begins, takes its next step, or dies. */
  datatype LoopEvent = Begin | Advance(l: nat) | Die(l: nat)

  /** The chunk of loop `l` is finished and came back full, so that another follows. */
  predicate WantsMore(w: Worker) {
    w.pc.Finished? && w.committed + w.failed >= CHUNK_SIZE
  }

  /** What happens in the protocol. */
  function ProtocolEvent(x: Loops, e: LoopEvent): Option<Event> {
    match e
    case Begin => Some(Start(Some(CHUNK_SIZE)))
    case Advance(l) =>
      if l >= |x.current| || x.current[l] >= |x.s.workers| then None
      else if WantsMore(x.s.workers[x.current[l]]) then Some(Start(Some(CHUNK_SIZE)))
      else Some(Step(x.current[l]))
    case Die(l) => if l < |x.current| then Some(Crash(x.current[l])) else None
  }

  function LoopNext(x: Loops, cfg: Config, e: LoopEvent): Loops {
    match ProtocolEvent(x, e)
    case None => x
    case Some(p) =>
      Loops(Next(x.s, cfg, p),
            if !p.Start? then x.current
            else if e.Advance? && e.l < |x.current| then x.current[e.l := |x.s.workers|]
            else x.current + [|x.s.workers|])
  }

  function LoopExec(x: Loops, cfg: Config, es: seq<LoopEvent>): Loops
    decreases |es|
  {
    if es == [] then x else LoopNext(LoopExec(x, cfg, es[..|es| - 1]), cfg, es[|es| - 1])
  }

  function NoLoops(base: seq<Row>, init: multiset<Entity>): Loops {
    Loops(Initial(base, init), [])
  }

  /** Loop `l` has left its loop: its last chunk came back short. */
  predicate Ended(x: Loops, l: nat) {
    && l < |x.current| && x.current[l] < |x.s.workers|
    && x.s.workers[x.current[l]].pc.Finished? && !WantsMore(x.s.workers[x.current[l]])
  }

  // ------------------------------------------------- chunk loops are schedules

  lemma LoopNextSystem(x: Loops, cfg: Config, e: LoopEvent)
    ensures var p := ProtocolEvent(x, e);
      LoopNext(x, cfg, e).s == if p.Some? then Next(x.s, cfg, p.value) else x.s
  {
  }

  lemma {:induction false} LoopsAreSchedules(x: Loops, cfg: Config, es: seq<LoopEvent>) returns (ps: seq<Event>)
    ensures LoopExec(x, cfg, es).s == Exec(x.s, cfg, ps)
  {
    if es == [] {
      ps := [];
    } else {
      var n := |es| - 1;
      ps := LoopsAreSchedules(x, cfg, es[..n]);
      var p := ProtocolEvent(LoopExec(x, cfg, es[..n]), es[n]);
      LoopNextSystem(LoopExec(x, cfg, es[..n]), cfg, es[n]);
      if p.Some? {
        ExecSnoc(x.s, cfg, ps, p.value);
        ps := ps + [p.value];
      }
    }
  }

  /** A loop that dies in a run leaves rows and target as they are and never goes on. */
  lemma DeathStops(x: Loops, cfg: Config, l: nat)
    requires l < |x.current| && x.current[l] < |x.s.workers| && x.s.workers[x.current[l]].pc != Finished
    ensures var x1 := LoopNext(x, cfg, Die(l));
      && x1.s.rows == x.s.rows && x1.s.target == x.s.target && x1.current == x.current
      && x1.s.workers[x.current[l]].pc == Dead
      && LoopNext(x1, cfg, Advance(l)) == x1
  {
    CrashStops(x.s, cfg, x.current[l], None);
  }

  /** The records of a run, dealt with or still to come. */
  function Size(w: Worker): nat {
    w.committed + w.failed + |w.todo|
  }

  /** A run leaves no eligible row out exactly when its chunk comes back short, and
      every run that is not the present one of a loop has finished. */
  ghost predicate LoopInv(x: Loops) {
    && (forall l :: 0 <= l < |x.current| ==> x.current[l] < |x.s.workers|)
    && (forall k :: 0 <= k < |x.s.workers| ==> (x.s.workers[k].full <==> Size(x.s.workers[k]) < CHUNK_SIZE))
    && (forall k :: 0 <= k < |x.s.workers| ==> k in x.current || x.s.workers[k].pc.Finished?)
  }

  /** A step touches one worker, and neither the size of its run nor its reach. */
  lemma StepKeepsSize(s: System, cfg: Config, w: nat)
    requires w < |s.workers| && Live(s.workers[w])
    ensures var s' := WorkerStep(s, cfg, w);
      && |s'.workers| == |s.workers|
      && s'.workers[w].full == s.workers[w].full && Size(s'.workers[w]) == Size(s.workers[w])
      && forall k :: 0 <= k < |s.workers| && k != w ==> s'.workers[k] == s.workers[k]
  {
  }

  lemma LoopKeeps(x: Loops, cfg: Config, e: LoopEvent)
    requires LoopInv(x)
    ensures LoopInv(LoopNext(x, cfg, e))
  {
    var p := ProtocolEvent(x, e);
    if p.Some? {
      match p.value
      case Start(_) => StartKeeps(x, cfg, e);
      case Step(w) => if w < |x.s.workers| && Live(x.s.workers[w]) { StepKeepsSize(x.s, cfg, w); }
      case Crash(w) =>
    }
  }

  lemma StartKeeps(x: Loops, cfg: Config, e: LoopEvent)
    requires LoopInv(x) && ProtocolEvent(x, e) == Some(Start(Some(CHUNK_SIZE)))
    ensures LoopInv(LoopNext(x, cfg, e))
  {
    var x1 := LoopNext(x, cfg, e);
    var n := |x.s.workers|;
    assert x1.s.workers == x.s.workers + [NewWorker(x.s, cfg, Some(CHUNK_SIZE))];
    forall k | 0 <= k < n + 1 ensures k in x1.current || x1.s.workers[k].pc.Finished? {
      StillCurrent(x, x1, e, k);
    }
  }

  lemma StillCurrent(x: Loops, x1: Loops, e: LoopEvent, k: nat)
    requires LoopInv(x) && k < |x1.s.workers| == |x.s.workers| + 1
    requires forall j :: 0 <= j < |x.s.workers| ==> x1.s.workers[j] == x.s.workers[j]
    requires x1.current == if e.Advance? && e.l < |x.current| then x.current[e.l := |x.s.workers|]
                           else x.current + [|x.s.workers|]
    requires e.Advance? && e.l < |x.current| ==> x.s.workers[x.current[e.l]].pc.Finished?
    ensures k in x1.current || x1.s.workers[k].pc.Finished?
  {
    if e.Advance? && e.l < |x.current| {
      if k == |x.s.workers| {
        assert x1.current[e.l] == k;
      } else if k in x.current {
        var l :| 0 <= l < |x.current| && x.current[l] == k;
        assert l != e.l ==> x1.current[l] == k;
      }
    }
  }

  lemma {:induction false} LoopInvHolds(base: seq<Row>, init: multiset<Entity>, cfg: Config, es: seq<LoopEvent>)
    ensures LoopInv(LoopExec(NoLoops(base, init), cfg, es))
  {
    if es != [] {
      LoopInvHolds(base, init, cfg, es[..|es| - 1]);
      LoopKeeps(LoopExec(NoLoops(base, init), cfg, es[..|es| - 1]), cfg, es[|es| - 1]);
    }
  }

  // ---------------------------------------------------------------- the theorem

  /** Any number of chunk loops, begun, interleaved and killed at any time. The target
      never holds more than one entity for each accepted row, final statuses tell the
      write, and as soon as one loop has ended each accepted row has exactly one.
      When all loops have ended no row is left to commit. */
  lemma ChunkLoopsWriteOnce(base: seq<Row>, init: multiset<Entity>, cfg: Config, es: seq<LoopEvent>)
    requires Guarded(base, init, cfg)
    ensures var x := LoopExec(NoLoops(base, init), cfg, es);
      && |x.s.rows| == |base|
      && (forall i :: 0 <= i < |base| && Mine(base[i], cfg.job) ==> EndsTellWrite(cfg, base[i], x.s, i))
      && x.s.written <= AcceptedRows(base, cfg)
      && x.s.target == init + EntitiesOf(base, cfg.d, x.s.written)
      && ((exists l :: Ended(x, l)) ==> x.s.target == init + EntitiesOf(base, cfg.d, AcceptedRows(base, cfg)))
      && (x.current != [] && (forall l :: 0 <= l < |x.current| ==> Ended(x, l)) ==>
            forall i :: 0 <= i < |base| ==> !Eligible(x.s.rows[i], cfg.job))
  {
    var x := LoopExec(NoLoops(base, init), cfg, es);
    var ps := LoopsAreSchedules(NoLoops(base, init), cfg, es);
    LoopInvHolds(base, init, cfg, es);
    InterleavedRunsAreSafe(base, init, cfg, ps);
    ExecOk(base, init, cfg, ps);
    if l :| Ended(x, l) {
      EndedIsComplete(base, init, cfg, x, l);
    }
    if x.current != [] && forall l :: 0 <= l < |x.current| ==> Ended(x, l) {
      assert Ended(x, 0);
      forall k | 0 <= k < |x.s.workers| ensures x.s.workers[k].pc.Finished? {
        if k in x.current {
          var l :| 0 <= l < |x.current| && x.current[l] == k;
          assert Ended(x, l);
        }
      }
      AllFinishedLeavesNone(base, init, cfg, ps);
    }
  }

  /** Whatever the loops have done, the next full run settles the import. */
  lemma LoopsConverge(base: seq<Row>, init: multiset<Entity>, cfg: Config, es: seq<LoopEvent>)
    requires Guarded(base, init, cfg)
    ensures var s := LoopExec(NoLoops(base, init), cfg, es).s;
      var b := RunBatch(s.rows, s.target, cfg.d, cfg.txn, cfg.job, None);
      && b.target == init + EntitiesOf(base, cfg.d, AcceptedRows(base, cfg))
      && |b.rows| == |base|
      && forall i :: 0 <= i < |base| && Mine(base[i], cfg.job) ==>
           b.rows[i].commit.Committed? || b.rows[i].commit.Failed?
  {
    var ps := LoopsAreSchedules(NoLoops(base, init), cfg, es);
    AnyHistoryConverges(base, init, cfg, ps);
  }

  lemma EndedIsComplete(base: seq<Row>, init: multiset<Entity>, cfg: Config, x: Loops, l: nat)
    requires Inv(base, init, cfg, x.s) && LoopInv(x) && Ended(x, l)
    ensures HasCompleteRun(x.s)
  {
    var w := x.s.workers[x.current[l]];
    assert WorkerOk(base, cfg, x.s.written, w);
    assert w.todo == [] && w.full;
  }
}
