/** Buffered bulk writes over the rows of one import. Mapping and validation both
    compute one update for each row and flush a buffer of them when it is full. */
module BulkUpdates {
  import opened Sequences
  import opened StagedRows
  import opened JobStore

  const BULK_CHUNK_SIZE := 500

  datatype Change =
    | SetVerdict(errors: seq<ValidationError>)
    | SetMapping(mappedFields: Fields, customFields: RawRow)

  /** An `updateOne` by id. */
  datatype Op = Op(id: nat, change: Change)

  function Changed(r: Row, c: Change): Row {
    match c
    case SetVerdict(errors) => r.(errors := errors, validation := if errors == [] then Valid else Invalid)
    case SetMapping(m, f) => r.(mappedFields := m, customFields := f)
  }

  /** The rows after the operations, one by one. */
  function Written(rows: seq<Row>, ops: seq<Op>): seq<Row> {
    if ops == [] then rows
    else
      var op := ops[|ops| - 1];
      var before := Written(rows, ops[..|ops| - 1]);
      if op.id < |before| then before[op.id := Changed(before[op.id], op.change)] else before
  }

  method BulkWriteStaged(store: Store, ops: seq<Op>)
    requires store.Valid()
    modifies store
    ensures store.Valid() && store.rows == Written(old(store.rows), ops)
  {
    for k := 0 to |ops|
      invariant store.Valid() && store.rows == Written(old(store.rows), ops[..k])
    {
      var op := ops[k];
      assert ops[..k + 1][..k] == ops[..k];
      if op.id < |store.rows| {
        store.rows := store.rows[op.id := Changed(store.rows[op.id], op.change)];
      }
    }
    assert ops[..|ops|] == ops;
  }

  /** One change for each row of the store; those of other imports are not sent. */
  type Plan = seq<Change>

  /** The rows when exactly those of the import before `n` have their change. */
  function Halfway(rows: seq<Row>, plan: Plan, job: nat, n: nat): seq<Row>
    requires n <= |rows| == |plan|
  {
    seq(|rows|, i requires 0 <= i < |rows| =>
      if i < n && rows[i].job == job then Changed(rows[i], plan[i]) else rows[i])
  }

  function Done(rows: seq<Row>, plan: Plan, job: nat): seq<Row>
    requires |rows| == |plan|
  {
    Halfway(rows, plan, job, |rows|)
  }

  /** The operations for the rows of the import between `from` and `to`, in order. */
  function OpsOf(rows: seq<Row>, plan: Plan, job: nat, from: nat, to: nat): seq<Op>
    requires from <= to <= |rows| == |plan|
  {
    if from == to then []
    else
      OpsOf(rows, plan, job, from, to - 1)
      + (if rows[to - 1].job == job then [Op(to - 1, plan[to - 1])] else [])
  }

  lemma HalfwayStep(rows: seq<Row>, plan: Plan, job: nat, n: nat)
    requires n < |rows| == |plan|
    ensures var h := Halfway(rows, plan, job, n);
      Halfway(rows, plan, job, n + 1) == if rows[n].job == job then h[n := Changed(h[n], plan[n])] else h
  {
  }

  lemma WrittenSnoc(rows: seq<Row>, ops: seq<Op>, op: Op)
    ensures var before := Written(rows, ops);
      Written(rows, ops + [op])
      == if op.id < |before| then before[op.id := Changed(before[op.id], op.change)] else before
  {
    assert (ops + [op])[..|ops + [op]| - 1] == ops;
  }

  lemma OpsSnoc(rows: seq<Row>, plan: Plan, job: nat, from: nat, to: nat)
    requires from < to <= |rows| == |plan|
    ensures var less := OpsOf(rows, plan, job, from, to - 1);
      OpsOf(rows, plan, job, from, to) == if rows[to - 1].job == job then less + [Op(to - 1, plan[to - 1])] else less
  {
    ConcatEmpty(OpsOf(rows, plan, job, from, to - 1));
  }

  /** One more operation brings the rows one step further. */
  lemma WriteStep(start: seq<Row>, ops: seq<Op>, rows: seq<Row>, plan: Plan, job: nat, n: nat)
    requires n < |rows| == |plan| && Written(start, ops) == Halfway(rows, plan, job, n)
    ensures Written(start, if rows[n].job == job then ops + [Op(n, plan[n])] else ops)
         == Halfway(rows, plan, job, n + 1)
  {
    HalfwayStep(rows, plan, job, n);
    WrittenSnoc(start, ops, Op(n, plan[n]));
  }

  lemma FlushStep(start: seq<Row>, rows: seq<Row>, plan: Plan, job: nat, from: nat, to: nat)
    requires from < to <= |rows| == |plan|
    requires Written(start, OpsOf(rows, plan, job, from, to - 1)) == Halfway(rows, plan, job, to - 1)
    ensures Written(start, OpsOf(rows, plan, job, from, to)) == Halfway(rows, plan, job, to)
  {
    OpsSnoc(rows, plan, job, from, to);
    WriteStep(start, OpsOf(rows, plan, job, from, to - 1), rows, plan, job, to - 1);
  }

  lemma {:induction false} FlushIsHalfway(rows: seq<Row>, plan: Plan, job: nat, from: nat, to: nat)
    requires from <= to <= |rows| == |plan|
    ensures Written(Halfway(rows, plan, job, from), OpsOf(rows, plan, job, from, to)) == Halfway(rows, plan, job, to)
  {
    if from < to {
      FlushIsHalfway(rows, plan, job, from, to - 1);
      FlushStep(Halfway(rows, plan, job, from), rows, plan, job, from, to);
    }
  }

  lemma {:induction false} OpsAppend(rows: seq<Row>, plan: Plan, job: nat, from: nat, mid: nat, to: nat)
    requires from <= mid <= to <= |rows| == |plan|
    ensures OpsOf(rows, plan, job, from, mid) + OpsOf(rows, plan, job, mid, to) == OpsOf(rows, plan, job, from, to)
  {
    if mid < to { OpsAppend(rows, plan, job, from, mid, to - 1); }
  }

  /** Operations on rows of the import below `to`, in increasing order. */
  ghost predicate InOrder(rows: seq<Row>, job: nat, ops: seq<Op>, to: nat) {
    && (forall k :: 0 <= k < |ops| ==> ops[k].id < to && ops[k].id < |rows| && rows[ops[k].id].job == job)
    && (forall k, l :: 0 <= k < l < |ops| ==> ops[k].id < ops[l].id)
  }

  lemma {:induction false} OpsIncrease(rows: seq<Row>, plan: Plan, job: nat, to: nat)
    requires to <= |rows| == |plan|
    ensures InOrder(rows, job, OpsOf(rows, plan, job, 0, to), to)
  {
    if to > 0 {
      OpsIncrease(rows, plan, job, to - 1);
      var less := OpsOf(rows, plan, job, 0, to - 1);
      assert InOrder(rows, job, less, to);
      if rows[to - 1].job == job {
        assert InOrder(rows, job, less + [Op(to - 1, plan[to - 1])], to);
      } else {
        assert less + [] == less;
      }
    }
  }

  lemma {:induction false} OpsReach(rows: seq<Row>, plan: Plan, job: nat, to: nat, i: nat)
    requires i < to <= |rows| == |plan| && rows[i].job == job
    ensures Op(i, plan[i]) in OpsOf(rows, plan, job, 0, to)
  {
    if i < to - 1 { OpsReach(rows, plan, job, to - 1, i); }
  }

  /** The operations of a whole pass name every row of the import exactly once, in
      cursor order, wherever the flushes fall. */
  lemma OneWriteEach(rows: seq<Row>, plan: Plan, job: nat)
    requires |rows| == |plan|
    ensures var ops := OpsOf(rows, plan, job, 0, |rows|);
      && InOrder(rows, job, ops, |rows|)
      && (forall i :: 0 <= i < |rows| && rows[i].job == job ==> Op(i, plan[i]) in ops)
  {
    OpsIncrease(rows, plan, job, |rows|);
    forall i | 0 <= i < |rows| && rows[i].job == job
      ensures Op(i, plan[i]) in OpsOf(rows, plan, job, 0, |rows|)
    {
      OpsReach(rows, plan, job, |rows|, i);
    }
  }

  /** Sends the buffered operations, if there are any. */
  method Flush(store: Store, ghost rows: seq<Row>, ghost plan: Plan, ghost job: nat,
               ghost flushed: nat, ghost n: nat, ops: seq<Op>)
    requires store.Valid() && flushed <= n <= |rows| == |plan|
    requires store.rows == Halfway(rows, plan, job, flushed) && ops == OpsOf(rows, plan, job, flushed, n)
    modifies store
    ensures store.Valid() && store.rows == Halfway(rows, plan, job, n)
    ensures OpsOf(rows, plan, job, 0, flushed) + ops == OpsOf(rows, plan, job, 0, n)
  {
    FlushIsHalfway(rows, plan, job, flushed, n);
    OpsAppend(rows, plan, job, 0, flushed, n);
    if ops != [] {
      BulkWriteStaged(store, ops);
    }
  }

  /** The flush inside the pass: a full buffer is sent and emptied. */
  method FlushIfFull(store: Store, ghost rows: seq<Row>, ghost plan: Plan, ghost job: nat,
                     ghost flushed: nat, ghost n: nat, ops: seq<Op>, ghost writes: seq<Op>)
    returns (ops': seq<Op>, ghost flushed': nat, ghost writes': seq<Op>)
    requires store.Valid() && flushed <= n <= |rows| == |plan|
    requires store.rows == Halfway(rows, plan, job, flushed) && ops == OpsOf(rows, plan, job, flushed, n)
    requires writes == OpsOf(rows, plan, job, 0, flushed)
    modifies store
    ensures store.Valid() && flushed' <= n && store.rows == Halfway(rows, plan, job, flushed')
    ensures ops' == OpsOf(rows, plan, job, flushed', n) && writes' == OpsOf(rows, plan, job, 0, flushed')
    ensures |writes'| + |ops'| == |writes| + |ops| && |ops'| < 500
  {
    ops', flushed', writes' := ops, flushed, writes;
    if |ops| >= BULK_CHUNK_SIZE {
      Flush(store, rows, plan, job, flushed, n, ops);
      ops', flushed', writes' := [], n, writes + ops;
    }
  }
}
