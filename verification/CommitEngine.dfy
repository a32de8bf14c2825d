/** The commit engine: reserve a row, write its entity, record the outcome. */
module CommitEngine {
  import opened Wrappers
  import opened StagedRows
  import opened JobStore
  import opened Text

  datatype Error = Error(code: Option<int>, message: string)

  /** How the engine recognises a write that hit a unique index. */
  predicate IsDuplicateKeyError(e: Error) {
    e.code == Some(11000) || e.code == Some(11001) || Contains(e.message, "E11000")
  }

  const DUPLICATE_KEY := Error(Some(11000), "E11000 duplicate key error")

  /** An entity in the target collection. */
  datatype Entity = Entity(ref: EntityRef, fields: Fields)

  /** What the engine knows of a target. `reject` says which rows its write
      refuses, `refOf` names the entity written for a row, and `uniqueIndex` says
      whether the target collection has a unique index on the identity field. */
  datatype Descriptor = Descriptor(
    identityField: string, reject: Fields -> Option<Error>, refOf: nat -> EntityRef,
    uniqueIndex: bool, commitInTransaction: bool)

  predicate UsesTransaction(d: Descriptor, connectionSupportsTransactions: bool) {
    d.commitInTransaction && connectionSupportsTransactions
  }

  function Identity(d: Descriptor, fields: Fields): Option<string> {
    if d.identityField in fields then Some(fields[d.identityField]) else None
  }

  function EntityOf(d: Descriptor, r: Row): Entity {
    Entity(d.refOf(r.id), r.mappedFields)
  }

  predicate Accepts(d: Descriptor, r: Row) {
    d.reject(r.mappedFields).None?
  }

  /** The unique index already holds this row's identity. */
  predicate Taken(target: multiset<Entity>, d: Descriptor, r: Row) {
    && Identity(d, r.mappedFields).Some?
    && exists e :: e in target && Identity(d, e.fields) == Identity(d, r.mappedFields)
  }

  /** A second write of this row would meet the unique index. */
  predicate Stoppable(d: Descriptor, r: Row) {
    d.uniqueIndex && Identity(d, r.mappedFields).Some?
  }

  /** Two rows share an identity. */
  predicate Clash(d: Descriptor, r: Row, q: Row) {
    Identity(d, r.mappedFields).Some? && Identity(d, r.mappedFields) == Identity(d, q.mappedFields)
  }

  lemma ClashTaken(target: multiset<Entity>, d: Descriptor, r: Row, q: Row)
    requires Clash(d, r, q)
    ensures Taken(target, d, r) == Taken(target, d, q)
  {
  }

  datatype Outcome = Written(ref: EntityRef) | Threw(error: Error)

  /** The descriptor's write: refused, stopped by the unique index, or done. */
  function CommitRow(target: multiset<Entity>, d: Descriptor, r: Row): (Outcome, multiset<Entity>) {
    if d.reject(r.mappedFields).Some? then (Threw(d.reject(r.mappedFields).value), target)
    else if d.uniqueIndex && Taken(target, d, r) then (Threw(DUPLICATE_KEY), target)
    else (Written(d.refOf(r.id)), target + multiset{EntityOf(d, r)})
  }

  /** The status update that follows a write. A duplicate key on a row that was
      already reserved when read counts as that row's own earlier write. */
  function Closing(out: Outcome, record: Row, txn: bool): Patch {
    match out
    case Written(ref) => Commit(ref)
    case Threw(e) =>
      if !txn && IsDuplicateKeyError(e) && record.commit.Committing? then CommitAgain
      else Fail(e.message)
  }

  /** Rows, target and counters of one batch. */
  datatype Batch = Batch(rows: seq<Row>, target: multiset<Entity>, committed: nat, failed: nat)

  /** The rows after a record whose write had outcome `out`. */
  function RowsAfter(rows: seq<Row>, txn: bool, record: Row, out: Outcome): seq<Row> {
    Update(if txn then rows else Update(rows, record.id, Reserve), record.id, Closing(out, record, txn))
  }

  function ProcessRow(b: Batch, d: Descriptor, txn: bool, record: Row): Batch {
    var (out, target) := CommitRow(b.target, d, record);
    var failed := Closing(out, record, txn).Fail?;
    Batch(RowsAfter(b.rows, txn, record, out), target,
          b.committed + (if failed then 0 else 1), b.failed + (if failed then 1 else 0))
  }

  function ProcessAll(b: Batch, d: Descriptor, txn: bool, todo: seq<Row>): Batch
    decreases todo
  {
    if todo == [] then b else ProcessAll(ProcessRow(b, d, txn, todo[0]), d, txn, todo[1..])
  }

  /** One uninterrupted run of the engine. */
  function RunBatch(rows: seq<Row>, target: multiset<Entity>, d: Descriptor, txn: bool,
                    job: nat, limit: Option<nat>): Batch
  {
    ProcessAll(Batch(rows, target, 0, 0), d, txn, Snapshot(rows, job, limit))
  }

  class Target {
    var entities: multiset<Entity>

    constructor ()
      ensures entities == multiset{}
    {
      entities := multiset{};
    }

    method Write(d: Descriptor, r: Row) returns (out: Outcome)
      modifies this
      ensures (out, entities) == CommitRow(old(entities), d, r)
    {
      var refusal := d.reject(r.mappedFields);
      if refusal.Some? {
        return Threw(refusal.value);
      }
      if d.uniqueIndex && Taken(entities, d, r) {
        return Threw(DUPLICATE_KEY);
      }
      entities := entities + multiset{EntityOf(d, r)};
      return Written(d.refOf(r.id));
    }
  }

  /** The loop body: `done` says whether the row ended as committed. */
  method CommitRecord(store: Store, target: Target, d: Descriptor, txn: bool, record: Row)
    returns (done: bool)
    requires store.Valid()
    modifies store, target
    ensures store.Valid()
    ensures var (out, entities) := CommitRow(old(target.entities), d, record);
      && target.entities == entities
      && store.rows == RowsAfter(old(store.rows), txn, record, out)
      && done == !Closing(out, record, txn).Fail?
  {
    if txn {
      // One transaction: the entity and the status flip, or neither.
      var out := target.Write(d, record);
      if out.Written? {
        store.UpdateOneStaged(record.id, Commit(out.ref));
      } else {
        store.UpdateOneStaged(record.id, Fail(out.error.message));
      }
      return out.Written?;
    }
    var wasReserved := record.commit.Committing?;
    store.UpdateOneStaged(record.id, Reserve);
    var out := target.Write(d, record);
    if out.Written? {
      store.UpdateOneStaged(record.id, Commit(out.ref));
      return true;
    } else if IsDuplicateKeyError(out.error) && wasReserved {
      store.UpdateOneStaged(record.id, CommitAgain);
      return true;
    }
    store.UpdateOneStaged(record.id, Fail(out.error.message));
    return false;
  }

  /** The same, with the counters. */
  method CountRecord(store: Store, target: Target, d: Descriptor, txn: bool, record: Row,
                     committed: nat, failed: nat)
    returns (committed': nat, failed': nat)
    requires store.Valid()
    modifies store, target
    ensures store.Valid()
    ensures Batch(store.rows, target.entities, committed', failed')
         == ProcessRow(Batch(old(store.rows), old(target.entities), committed, failed), d, txn, record)
  {
    var done := CommitRecord(store, target, d, txn, record);
    if done {
      return committed + 1, failed;
    }
    return committed, failed + 1;
  }

  method CommitBatch(store: Store, target: Target, d: Descriptor, supported: bool,
                     job: nat, limit: Option<nat>)
    returns (committed: nat, failed: nat, processed: nat)
    requires store.Valid()
    modifies store, target
    ensures store.Valid()
    ensures Batch(store.rows, target.entities, committed, failed)
         == RunBatch(old(store.rows), old(target.entities), d, d.commitInTransaction && supported, job, limit)
    ensures processed == committed + failed
  {
    var txn := UsesTransaction(d, supported);
    ghost var final := RunBatch(store.rows, target.entities, d, txn, job, limit);
    committed, failed := 0, 0;
    var cursor := store.CursorStaged(job, limit);
    ghost var left := cursor.records;
    var next := cursor.Next();
    while next.Some?
      invariant store.Valid() && fresh(cursor) && cursor.idx <= |cursor.records|
      invariant if next.Some? then left != [] && next.value == left[0] && cursor.records[cursor.idx..] == left[1..]
                else left == []
      invariant final == ProcessAll(Batch(store.rows, target.entities, committed, failed), d, txn, left)
      decreases |left|
    {
      committed, failed := CountRecord(store, target, d, txn, next.value, committed, failed);
      left := left[1..];
      next := cursor.Next();
    }
    processed := committed + failed;
  }
}
