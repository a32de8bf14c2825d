/** The in-memory job store under the commit loop: a list of staged rows updated
    in place, and a cursor over a snapshot of it. */
module JobStore {
  import opened Wrappers
  import opened StagedRows

  /** The `$set` documents the commit loop writes. */
  datatype Patch =
    | Reserve
    | Commit(ref: EntityRef)
    | CommitAgain
    | Fail(message: string)

  function Patched(r: Row, p: Patch): Row {
    match p
    case Reserve => r.(commit := Committing)
    case Commit(ref) => r.(commit := Committed, entity := Some(ref), commitError := None)
    case CommitAgain => r.(commit := Committed, commitError := None)
    case Fail(message) => r.(commit := Failed, commitError := Some(message))
  }

  /** The store after one `updateOne` on the row with this id. */
  function Update(rows: seq<Row>, id: nat, p: Patch): seq<Row> {
    if id < |rows| then rows[id := Patched(rows[id], p)] else rows
  }

  /** An asynchronous iterator over the records selected when it was made. */
  class Cursor {
    const records: seq<Row>
    var idx: nat

    constructor (records: seq<Row>)
      ensures this.records == records && idx == 0
    {
      this.records := records;
      idx := 0;
    }

    method Next() returns (r: Option<Row>)
      requires idx <= |records|
      modifies this
      ensures idx <= |records|
      ensures old(idx) == |records| ==> r == None && idx == old(idx)
      ensures old(idx) < |records| ==> r == Some(records[old(idx)]) && idx == old(idx) + 1
    {
      if idx >= |records| {
        return None;
      }
      r := Some(records[idx]);
      idx := idx + 1;
    }
  }

  class Store {
    var rows: seq<Row>

    ghost predicate Valid()
      reads this
    {
      Addressed(rows)
    }

    constructor (rows: seq<Row>)
      requires Addressed(rows)
      ensures Valid() && this.rows == rows
    {
      this.rows := rows;
    }

    /** Filter, sort and limit are applied once, to the rows as they are now. */
    method CursorStaged(job: nat, limit: Option<nat>) returns (c: Cursor)
      ensures fresh(c) && c.idx == 0 && c.records == Snapshot(rows, job, limit)
    {
      var records: seq<Row> := [];
      var i := 0;
      while i < |rows|
        invariant 0 <= i <= |rows|
        invariant records == Eligibles(rows[..i], job)
      {
        assert rows[..i + 1][..i] == rows[..i];
        if Eligible(rows[i], job) {
          records := records + [rows[i]];
        }
        i := i + 1;
      }
      assert rows[..i] == rows;
      c := new Cursor(Limited(SortByRowIndex(records), limit));
    }

    /** The source visits every record and patches those whose id matches. */
    method UpdateOneStaged(id: nat, p: Patch)
      requires Valid()
      modifies this
      ensures Valid() && rows == Update(old(rows), id, p)
    {
      var i := 0;
      while i < |rows|
        invariant 0 <= i <= |rows| == |old(rows)|
        invariant forall k :: 0 <= k < |rows| ==>
          rows[k] == if k < i && k == id then Patched(old(rows)[k], p) else old(rows)[k]
      {
        if rows[i].id == id {
          rows := rows[i := Patched(rows[i], p)];
        }
        i := i + 1;
      }
    }
  }
}
