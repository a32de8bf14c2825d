/** The staged row, shared by staging, mapping, validation and commit, and the
    query the commit loop runs over it: filter, sort by `rowIndex`, limit. */
module StagedRows {
  import opened Wrappers

  /** A parsed cell. Numeric tokens keep their digits, so no rounding is modelled. */
  datatype Cell = Null | Num(digits: string) | Text(text: string)

  type RawRow = map<string, Cell>

  /** Mapped target fields; an absent key stands for null or undefined. */
  type Fields = map<string, string>

  datatype ValidationStatus = Unvalidated | Valid | Invalid

  datatype ValidationError =
    | Required(key: string)
    | NotInEnum(key: string, value: string)
    | DuplicateInFile
    | AlreadyExists
    | ReferenceNotFound(key: string, value: string)

  datatype CommitStatus = Pending | Committing | Committed | Skipped | Failed

  datatype EntityRef = EntityRef(id: nat, model: string)

  /** `id` is the row's address in the store, `job` its import. */
  datatype Row = Row(
    id: nat, job: nat, rowIndex: nat,
    rawRow: RawRow, customFields: RawRow, mappedFields: Fields,
    validation: ValidationStatus, errors: seq<ValidationError>,
    commit: CommitStatus, entity: Option<EntityRef>, commitError: Option<string>)

  /** Every row sits at its own address. */
  ghost predicate Addressed(rows: seq<Row>) {
    forall i :: 0 <= i < |rows| ==> rows[i].id == i
  }

  /** Same row but for the three fields the commit writes. */
  ghost predicate SameContent(a: Row, b: Row) {
    a == b.(commit := a.commit, entity := a.entity, commitError := a.commitError)
  }

  /** The unique index on (importJobId, rowIndex). */
  ghost predicate UniqueRowIndex(rows: seq<Row>, job: nat) {
    forall i, j :: 0 <= i < j < |rows| && rows[i].job == job && rows[j].job == job
      ==> rows[i].rowIndex != rows[j].rowIndex
  }

  /** The rows an import may write: validated as good. */
  predicate Mine(r: Row, job: nat) {
    r.job == job && r.validation.Valid?
  }

  /** The filter of the commit loop. */
  predicate Eligible(r: Row, job: nat) {
    Mine(r, job) && (r.commit.Pending? || r.commit.Committing?)
  }

  function Eligibles(rows: seq<Row>, job: nat): seq<Row> {
    if rows == [] then []
    else
      var rest := Eligibles(rows[..|rows| - 1], job);
      if Eligible(rows[|rows| - 1], job) then rest + [rows[|rows| - 1]] else rest
  }

  /** `r` goes behind every row whose index is not greater, so that sorting is stable. */
  function Insert(s: seq<Row>, r: Row): seq<Row> {
    if s == [] || s[|s| - 1].rowIndex <= r.rowIndex then s + [r]
    else Insert(s[..|s| - 1], r) + [s[|s| - 1]]
  }

  function SortByRowIndex(s: seq<Row>): seq<Row> {
    if s == [] then [] else Insert(SortByRowIndex(s[..|s| - 1]), s[|s| - 1])
  }

  /** A missing or zero limit means no limit. */
  function Limited<T>(s: seq<T>, limit: Option<nat>): seq<T> {
    if limit.None? || limit.value == 0 || |s| <= limit.value then s else s[..limit.value]
  }

  function Snapshot(rows: seq<Row>, job: nat, limit: Option<nat>): seq<Row> {
    Limited(SortByRowIndex(Eligibles(rows, job)), limit)
  }

  // ---------------------------------------------------------------- the filter

  lemma {:induction false} EligiblesIn(rows: seq<Row>, job: nat, r: Row)
    ensures r in Eligibles(rows, job) <==> r in rows && Eligible(r, job)
  {
    if rows != [] {
      var n := |rows| - 1;
      EligiblesIn(rows[..n], job, r);
      assert rows == rows[..n] + [rows[n]];
    }
  }

  // ------------------------------------------------------------------ the sort

  ghost predicate Sorted(s: seq<Row>) {
    forall i, j :: 0 <= i < j < |s| ==> s[i].rowIndex < s[j].rowIndex
  }

  /** No two entries share a `rowIndex`. */
  ghost predicate DistinctIndex(s: seq<Row>) {
    forall i, j :: 0 <= i < j < |s| ==> s[i].rowIndex != s[j].rowIndex
  }

  lemma {:induction false} InsertSpec(s: seq<Row>, r: Row)
    requires Sorted(s) && forall x :: x in s ==> x.rowIndex != r.rowIndex
    ensures Sorted(Insert(s, r)) && |Insert(s, r)| == |s| + 1
    ensures forall x :: x in Insert(s, r) <==> x == r || x in s
  {
    if s == [] || s[|s| - 1].rowIndex <= r.rowIndex {
    } else {
      var n := |s| - 1;
      InsertSpec(s[..n], r);
      var t := Insert(s[..n], r);
      forall k | 0 <= k < |t| ensures t[k].rowIndex < s[n].rowIndex {
        assert t[k] in t;
        assert t[k] == r || exists j :: 0 <= j < n && s[j] == t[k];
      }
      assert s == s[..n] + [s[n]];
    }
  }

  lemma {:induction false} SortSpec(s: seq<Row>)
    requires DistinctIndex(s)
    ensures Sorted(SortByRowIndex(s)) && |SortByRowIndex(s)| == |s|
    ensures forall x :: x in SortByRowIndex(s) <==> x in s
  {
    if s != [] {
      var n := |s| - 1;
      SortSpec(s[..n]);
      assert s == s[..n] + [s[n]];
      forall x | x in SortByRowIndex(s[..n]) ensures x.rowIndex != s[n].rowIndex {
        assert x in s[..n];
      }
      InsertSpec(SortByRowIndex(s[..n]), s[n]);
    }
  }

  /** A sorted list is determined by its elements. */
  lemma {:induction false} SortedUnique(a: seq<Row>, b: seq<Row>)
    requires Sorted(a) && Sorted(b)
    requires forall x :: x in a <==> x in b
    ensures a == b
  {
    assert a == [] || a[0] in a;
    assert b == [] || b[0] in b;
    if a == [] || b == [] {
    } else {
      var m, n := |a| - 1, |b| - 1;
      assert a[m] in b && b[n] in a;
      assert a[m] == b[n];
      forall x ensures x in a[..m] <==> x in b[..n] {
        assert x in a <==> x in a[..m] || x == a[m];
        assert x in b <==> x in b[..n] || x == b[n];
      }
      SortedUnique(a[..m], b[..n]);
      assert a == a[..m] + [a[m]] && b == b[..n] + [b[n]];
    }
  }

  lemma {:induction false} EligiblesDistinct(rows: seq<Row>, job: nat)
    requires UniqueRowIndex(rows, job)
    ensures DistinctIndex(Eligibles(rows, job))
  {
    if rows != [] {
      var n := |rows| - 1;
      var rest := Eligibles(rows[..n], job);
      EligiblesDistinct(rows[..n], job);
      forall k | 0 <= k < |rest| && Eligible(rows[n], job)
        ensures rest[k].rowIndex != rows[n].rowIndex
      {
        EligiblesIn(rows[..n], job, rest[k]);
      }
    }
  }

  /** What the cursor yields without a limit: exactly the eligible rows, in
      strictly increasing `rowIndex`. */
  lemma SnapshotSpec(rows: seq<Row>, job: nat)
    requires UniqueRowIndex(rows, job)
    ensures var s := Snapshot(rows, job, None);
      && Sorted(s) && |s| == |Eligibles(rows, job)|
      && forall r :: r in s <==> r in rows && Eligible(r, job)
  {
    EligiblesDistinct(rows, job);
    SortSpec(Eligibles(rows, job));
    forall r ensures r in Eligibles(rows, job) <==> r in rows && Eligible(r, job) {
      EligiblesIn(rows, job, r);
    }
  }

  /** Records of different rows, all among the first `n`. */
  ghost predicate DistinctRecords(todo: seq<Row>, n: nat) {
    && (forall k :: 0 <= k < |todo| ==> todo[k].id < n)
    && (forall k, l :: 0 <= k < l < |todo| ==> todo[k].id != todo[l].id)
  }

  /** The snapshot holds the eligible rows as they are, each once. */
  lemma SnapshotRecords(rows: seq<Row>, job: nat)
    requires Addressed(rows) && UniqueRowIndex(rows, job)
    ensures var todo := Snapshot(rows, job, None);
      && DistinctRecords(todo, |rows|)
      && (forall k :: 0 <= k < |todo| ==> todo[k].id < |rows| && rows[todo[k].id] == todo[k] && Eligible(todo[k], job))
      && (forall i :: 0 <= i < |rows| && Eligible(rows[i], job) ==> rows[i] in todo)
  {
    SnapshotSpec(rows, job);
    var todo := Snapshot(rows, job, None);
    forall k | 0 <= k < |todo| ensures todo[k].id < |rows| && rows[todo[k].id] == todo[k] && Eligible(todo[k], job)
    {
      assert todo[k] in todo;
    }
  }

  lemma SomethingEligible(rows: seq<Row>, job: nat)
    requires Addressed(rows) && UniqueRowIndex(rows, job)
    ensures Snapshot(rows, job, None) != [] ==> exists i :: 0 <= i < |rows| && Eligible(rows[i], job)
  {
    SnapshotRecords(rows, job);
    if Snapshot(rows, job, None) != [] {
      assert Eligible(rows[Snapshot(rows, job, None)[0].id], job);
    }
  }

  /** How many rows the import may write. */
  function CountMine(rows: seq<Row>, job: nat): nat {
    if rows == [] then 0
    else CountMine(rows[..|rows| - 1], job) + (if Mine(rows[|rows| - 1], job) then 1 else 0)
  }

  lemma {:induction false} EligiblesAmongMine(rows: seq<Row>, job: nat)
    ensures |Eligibles(rows, job)| <= CountMine(rows, job)
    ensures |Eligibles(rows, job)| == CountMine(rows, job)
      <==> forall i :: 0 <= i < |rows| && Mine(rows[i], job) ==> Eligible(rows[i], job)
  {
    if rows != [] {
      var n := |rows| - 1;
      EligiblesAmongMine(rows[..n], job);
      assert rows == rows[..n] + [rows[n]];
    }
  }
}
