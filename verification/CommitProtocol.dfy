/** The commit loop as atomic steps over the staged rows and the target
    collection, with any number of workers, and a crash possible between any two
    steps. A schedule is any list of events; events that are not enabled change
    nothing. */
module CommitProtocol {
  import opened Wrappers
  import opened StagedRows
  import opened JobStore
  import opened CommitEngine
  import opened Bags

  datatype Pc = Top | Reserved | Called(outcome: Outcome) | Finished | Dead

  /** `todo` is what is left of the worker's snapshot; its head is the record in
      hand. `full` says that the snapshot left no eligible row out. */
  datatype Worker = Worker(todo: seq<Row>, full: bool, pc: Pc, committed: nat, failed: nat)

  /** `written` records which rows have had their entity written. It is a history
      variable: no step reads it. */
  datatype System = System(
    rows: seq<Row>, target: multiset<Entity>, written: set<nat>, workers: seq<Worker>)

  datatype Config = Config(d: Descriptor, txn: bool, job: nat)

  /** `Restart` is a new process after the death of every other one; `Start` is a
      second process beside those alive. */
  datatype Event =
    | Start(limit: Option<nat>)
    | Restart(limit: Option<nat>)
    | Step(w: nat)
    | Crash(w: nat)

  /** A run without a limit, or one whose snapshot stays below it, takes in every row
      that is eligible. The queue worker leaves its loop on the same condition: fewer
      rows processed than asked for. */
  predicate Below(processed: nat, limit: Option<nat>) {
    limit.None? || limit.value == 0 || processed < limit.value
  }

  predicate Live(w: Worker) {
    !w.pc.Finished? && !w.pc.Dead?
  }

  function Kill(w: Worker): Worker {
    if Live(w) then w.(pc := Dead) else w
  }

  function KillAll(ws: seq<Worker>): seq<Worker> {
    seq(|ws|, k requires 0 <= k < |ws| => Kill(ws[k]))
  }

  function NewWorker(s: System, cfg: Config, limit: Option<nat>): Worker {
    var todo := Snapshot(s.rows, cfg.job, limit);
    Worker(todo, Below(|todo|, limit), Top, 0, 0)
  }

  /** The write of the record in hand, as one step. */
  function WriteStep(s: System, cfg: Config, w: nat): System
    requires w < |s.workers| && s.workers[w].todo != []
  {
    var record := s.workers[w].todo[0];
    var (out, target) := CommitRow(s.target, cfg.d, record);
    s.(target := target,
       written := if out.Written? then s.written + {record.id} else s.written,
       workers := s.workers[w := s.workers[w].(pc := Called(out))])
  }

  /** The status update that ends the record in hand. */
  function CloseStep(s: System, cfg: Config, w: nat, out: Outcome): System
    requires w < |s.workers| && s.workers[w].todo != []
  {
    var me := s.workers[w];
    var p := Closing(out, me.todo[0], cfg.txn);
    s.(rows := Update(s.rows, me.todo[0].id, p),
       workers := s.workers[w := Worker(me.todo[1..], me.full, Top,
         me.committed + (if p.Fail? then 0 else 1), me.failed + (if p.Fail? then 1 else 0))])
  }

  /** One atomic step of worker `w`. In a transaction the write and the status
      flip are one step, and a refused write leaves only the `failed` update. */
  function WorkerStep(s: System, cfg: Config, w: nat): System
    requires w < |s.workers| && Live(s.workers[w])
  {
    var me := s.workers[w];
    if me.todo == [] then s.(workers := s.workers[w := me.(pc := Finished)])
    else match me.pc
      case Top =>
        if cfg.txn then
          var s1 := WriteStep(s, cfg, w);
          if s1.workers[w].pc.outcome.Written? then CloseStep(s1, cfg, w, s1.workers[w].pc.outcome) else s1
        else s.(rows := Update(s.rows, me.todo[0].id, Reserve),
                workers := s.workers[w := me.(pc := Reserved)])
      case Reserved => WriteStep(s, cfg, w)
      case Called(out) => CloseStep(s, cfg, w, out)
      case _ => s
  }

  function Next(s: System, cfg: Config, e: Event): System {
    match e
    case Start(limit) => s.(workers := s.workers + [NewWorker(s, cfg, limit)])
    case Restart(limit) => s.(workers := KillAll(s.workers) + [NewWorker(s, cfg, limit)])
    case Step(w) => if w < |s.workers| && Live(s.workers[w]) then WorkerStep(s, cfg, w) else s
    case Crash(w) =>
      if w < |s.workers| then s.(workers := s.workers[w := Kill(s.workers[w])]) else s
  }

  function Exec(s: System, cfg: Config, es: seq<Event>): System
    decreases |es|
  {
    if es == [] then s else Next(Exec(s, cfg, es[..|es| - 1]), cfg, es[|es| - 1])
  }

  function Initial(base: seq<Row>, init: multiset<Entity>): System {
    System(base, init, {}, [])
  }

  lemma {:induction false} ExecAppend(s: System, cfg: Config, a: seq<Event>, b: seq<Event>)
    ensures Exec(s, cfg, a + b) == Exec(Exec(s, cfg, a), cfg, b)
  {
    if b == [] {
      assert a + b == a;
    } else {
      var n := |b| - 1;
      ExecAppend(s, cfg, a, b[..n]);
      assert (a + b)[..|a + b| - 1] == a + b[..n];
    }
  }

  /** A crash leaves rows and target as they are, and the worker does nothing more; so a
      restart with every worker there was. */
  lemma CrashStops(s: System, cfg: Config, w: nat, limit: Option<nat>)
    requires w < |s.workers| && s.workers[w].pc != Finished
    ensures var c, r := Next(s, cfg, Crash(w)), Next(s, cfg, Restart(limit));
      && c.rows == s.rows && c.target == s.target && c.workers == s.workers[w := s.workers[w].(pc := Dead)]
      && Next(c, cfg, Step(w)) == c
      && r.rows == s.rows && r.target == s.target && Next(r, cfg, Step(w)) == r
  {
    var r := Next(s, cfg, Restart(limit));
    assert r.workers[w] == Kill(s.workers[w]);
  }

  // ------------------------------------------------ what a fresh import offers

  /** A row of the import that the target would take. */
  predicate Good(cfg: Config, r: Row) {
    Mine(r, cfg.job) && Accepts(cfg.d, r)
  }

  /** The unique index, if there is one, has room for every good row: none finds its
      identity in the target, and no two share one. */
  ghost predicate RoomForAll(base: seq<Row>, init: multiset<Entity>, cfg: Config) {
    cfg.d.uniqueIndex ==>
      && (forall i :: 0 <= i < |base| && Good(cfg, base[i]) ==> !Taken(init, cfg.d, base[i]))
      && (forall i, j :: 0 <= i < j < |base| && Good(cfg, base[i]) && Good(cfg, base[j]) ==>
            !Clash(cfg.d, base[i], base[j]))
  }

  /** The target refuses the row with an error that reads as a duplicate key. */
  predicate Lookalike(cfg: Config, r: Row) {
    Mine(r, cfg.job) && !Accepts(cfg.d, r) && IsDuplicateKeyError(cfg.d.reject(r.mappedFields).value)
  }

  ghost predicate NoLookalike(base: seq<Row>, cfg: Config) {
    forall i :: 0 <= i < |base| ==> !Lookalike(cfg, base[i])
  }

  /** A staged and validated import, nothing of it committed yet. */
  ghost predicate Staged(base: seq<Row>, cfg: Config) {
    && Addressed(base) && UniqueRowIndex(base, cfg.job)
    && forall i :: 0 <= i < |base| && Mine(base[i], cfg.job) ==> base[i].commit.Pending?
  }

  /** The write of a good row that is tried again meets a unique index. */
  ghost predicate StopsSecondWrite(base: seq<Row>, cfg: Config) {
    forall i :: 0 <= i < |base| && Good(cfg, base[i]) ==> Stoppable(cfg.d, base[i])
  }

  /** Without a transaction a write that is tried again must be stopped by the unique
      index, and a refusal must not look like that. */
  ghost predicate RetrySafe(base: seq<Row>, cfg: Config) {
    NoLookalike(base, cfg) && StopsSecondWrite(base, cfg)
  }

  /** What each mode needs: no good row is in the way of a unique index, and retries
      are safe unless each write is one transaction with its status flip. */
  ghost predicate Sound(base: seq<Row>, init: multiset<Entity>, cfg: Config) {
    Staged(base, cfg) && RoomForAll(base, init, cfg) && (!cfg.txn ==> RetrySafe(base, cfg))
  }

  function Entities(base: seq<Row>, d: Descriptor): seq<Entity> {
    seq(|base|, i requires 0 <= i < |base| => EntityOf(d, base[i]))
  }

  /** One entity for each row of `which`. */
  ghost function EntitiesOf(base: seq<Row>, d: Descriptor, which: set<nat>): multiset<Entity> {
    Bag(Entities(base, d), which, |base|)
  }

  ghost predicate TargetOk(base: seq<Row>, init: multiset<Entity>, cfg: Config,
                           target: multiset<Entity>, written: set<nat>)
  {
    && target == init + EntitiesOf(base, cfg.d, written)
    && forall i :: i in written ==> i < |base| && Good(cfg, base[i])
  }

  lemma EntitiesHave(base: seq<Row>, d: Descriptor, which: set<nat>, e: Entity)
    ensures e in EntitiesOf(base, d, which) <==> exists i :: i in which && i < |base| && EntityOf(d, base[i]) == e
  {
    BagHas(Entities(base, d), which, |base|, e);
    forall i | 0 <= i < |base| ensures Entities(base, d)[i] == EntityOf(d, base[i]) {}
  }

  lemma EntitiesAdd(base: seq<Row>, d: Descriptor, which: set<nat>, i: nat)
    requires i < |base| && i !in which
    ensures EntitiesOf(base, d, which + {i}) == EntitiesOf(base, d, which) + multiset{EntityOf(d, base[i])}
  {
    BagAdd(Entities(base, d), which, i, |base|);
  }

  lemma NoEntities(base: seq<Row>, d: Descriptor)
    ensures EntitiesOf(base, d, {}) == multiset{}
  {
    BagEmpty(Entities(base, d), |base|);
  }

  lemma WrittenIsTaken(base: seq<Row>, init: multiset<Entity>, cfg: Config,
                       target: multiset<Entity>, written: set<nat>, i: nat)
    requires TargetOk(base, init, cfg, target, written) && i in written
    ensures i < |base| && EntityOf(cfg.d, base[i]) in target
    ensures Stoppable(cfg.d, base[i]) ==> Taken(target, cfg.d, base[i])
  {
    EntitiesHave(base, cfg.d, written, EntityOf(cfg.d, base[i]));
  }

  lemma TakenWasWritten(base: seq<Row>, init: multiset<Entity>, cfg: Config,
                        target: multiset<Entity>, written: set<nat>, i: nat)
    requires RoomForAll(base, init, cfg) && cfg.d.uniqueIndex && TargetOk(base, init, cfg, target, written)
    requires i < |base| && Good(cfg, base[i]) && Taken(target, cfg.d, base[i])
    ensures i in written
  {
    var e :| e in target && Identity(cfg.d, e.fields) == Identity(cfg.d, base[i].mappedFields);
    EntitiesHave(base, cfg.d, written, e);
    assert !Taken(init, cfg.d, base[i]);
    var j: nat :| j in written && j < |base| && EntityOf(cfg.d, base[j]) == e;
    assert Clash(cfg.d, base[i], base[j]) && Clash(cfg.d, base[j], base[i]);
  }

  /** The unique index stops exactly the good rows that have been written. */
  lemma TakenIsWritten(base: seq<Row>, init: multiset<Entity>, cfg: Config,
                       target: multiset<Entity>, written: set<nat>, i: nat)
    requires RoomForAll(base, init, cfg) && TargetOk(base, init, cfg, target, written)
    requires i < |base| && Good(cfg, base[i]) && Stoppable(cfg.d, base[i])
    ensures Taken(target, cfg.d, base[i]) <==> i in written
  {
    if i in written { WrittenIsTaken(base, init, cfg, target, written, i); }
    if Taken(target, cfg.d, base[i]) { TakenWasWritten(base, init, cfg, target, written, i); }
  }

  /** What the write of row `i` does in a state where `written` has been written. */
  lemma WriteOutcome(base: seq<Row>, init: multiset<Entity>, cfg: Config,
                     target: multiset<Entity>, written: set<nat>, r: Row)
    requires RoomForAll(base, init, cfg) && TargetOk(base, init, cfg, target, written)
    requires r.id < |base| && Mine(base[r.id], cfg.job) && SameContent(r, base[r.id])
    ensures CommitRow(target, cfg.d, r) ==
      if !Accepts(cfg.d, r) then (Threw(cfg.d.reject(r.mappedFields).value), target)
      else if Stoppable(cfg.d, r) && r.id in written then (Threw(DUPLICATE_KEY), target)
      else (Written(cfg.d.refOf(r.id)), target + multiset{EntityOf(cfg.d, r)})
    ensures Accepts(cfg.d, r) && r.id !in written
      ==> TargetOk(base, init, cfg, target + multiset{EntityOf(cfg.d, r)}, written + {r.id})
  {
    assert Taken(target, cfg.d, r) == Taken(target, cfg.d, base[r.id]);
    if Stoppable(cfg.d, r) && Accepts(cfg.d, r) {
      TakenIsWritten(base, init, cfg, target, written, r.id);
    }
    if r.id !in written {
      EntitiesAdd(base, cfg.d, written, r.id);
    }
  }
}
