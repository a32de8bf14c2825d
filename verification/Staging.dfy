/** Clear, then restage in chunks of 1000: whatever a crash has left behind, the
    retry ends with one staged row for each record. */
module Staging {
  import opened Wrappers
  import opened Sequences
  import opened StagedRows

  const STAGE_CHUNK_SIZE := 1000

  /** A staged document before the store gives it an address. */
  datatype Doc = Doc(job: nat, rowIndex: nat, rawRow: RawRow)

  predicate Conflicts(docs: seq<Doc>, d: Doc) {
    exists k :: 0 <= k < |docs| && docs[k].job == d.job && docs[k].rowIndex == d.rowIndex
  }

  /** The unique index on (importJobId, rowIndex). */
  ghost predicate Indexed(docs: seq<Doc>) {
    forall i, j :: 0 <= i < j < |docs| ==> docs[i].job != docs[j].job || docs[i].rowIndex != docs[j].rowIndex
  }

  function Others(docs: seq<Doc>, job: nat): seq<Doc> {
    if docs == [] then []
    else
      Others(docs[..|docs| - 1], job) + (if docs[|docs| - 1].job == job then [] else [docs[|docs| - 1]])
  }

  /** The documents of records `from` to `to`. */
  function DocsFrom(job: nat, records: seq<RawRow>, from: nat, to: nat): seq<Doc>
    requires from <= to <= |records|
  {
    seq(to - from, k requires 0 <= k < to - from => Doc(job, from + k, records[from + k]))
  }

  /** The last `|records|` documents are those of the import: the k-th has index `k`
      and holds record `k`. None in front of them is of the import. */
  ghost predicate OneForEach(docs: seq<Doc>, job: nat, records: seq<RawRow>) {
    exists n: nat :: n + |records| == |docs| && OthersThenEach(docs, n, job, records)
  }

  ghost predicate OthersThenEach(docs: seq<Doc>, n: nat, job: nat, records: seq<RawRow>)
    requires n + |records| == |docs|
  {
    && (forall i :: 0 <= i < n ==> docs[i].job != job)
    && (forall k: nat :: k < |records| ==> docs[n + k] == Doc(job, k, records[k]))
  }

  /** The documents of every other import are the same. */
  ghost predicate SameOthers(before: seq<Doc>, after: seq<Doc>, job: nat) {
    forall d: Doc :: d.job != job ==> (d in after <==> d in before)
  }

  class StagingArea {
    var docs: seq<Doc>

    constructor ()
      ensures docs == []
    {
      docs := [];
    }

    /** deleteMany({ importJobId }) */
    method ClearStagedRows(job: nat)
      modifies this
      ensures docs == Others(old(docs), job)
    {
      var kept: seq<Doc> := [];
      for i := 0 to |docs|
        invariant docs == old(docs) && kept == Others(docs[..i], job)
      {
        assert docs[..i + 1][..i] == docs[..i];
        if docs[i].job != job {
          kept := kept + [docs[i]];
        }
      }
      assert docs[..|docs|] == docs;
      docs := kept;
    }

    /** Unordered insert: every document the index admits goes in; any that it does
        not makes the call fail. */
    method InsertMany(batch: seq<Doc>) returns (ok: bool)
      requires Indexed(docs)
      modifies this
      ensures Indexed(docs)
      ensures ok <==> docs == old(docs) + batch
      ensures old(docs) <= docs && forall d :: d in docs ==> d in old(docs) || d in batch
      ensures forall d :: d in batch ==> Conflicts(docs, d)
      ensures (forall d :: d in batch ==> !Conflicts(old(docs), d)) && Indexed(batch) ==> ok
    {
      ok := true;
      ghost var from := docs;
      for k := 0 to |batch|
        invariant Indexed(docs)
        invariant ok ==> docs == from + batch[..k]
        invariant !ok ==> |docs| < |from| + k
        invariant from <= docs && forall d :: d in docs ==> d in from || d in batch
        invariant forall j :: 0 <= j < k ==> Conflicts(docs, batch[j])
        invariant (forall d :: d in batch ==> !Conflicts(from, d)) && Indexed(batch) ==> ok
      {
        assert from + batch[..k + 1] == from + batch[..k] + [batch[k]];
        FitsAfter(from, batch, k);
        ConflictsStay(docs, batch[k]);
        if Conflicts(docs, batch[k]) {
          ok := false;
        } else {
          docs := docs + [batch[k]];
        }
      }
      assert batch[..|batch|] == batch;
    }

    method StageRows(job: nat, records: seq<RawRow>) returns (inserted: nat, ok: bool)
      requires Indexed(docs)
      modifies this
      ensures Indexed(docs)
      ensures ok ==> inserted == |records| && docs == old(docs) + DocsFrom(job, records, 0, |records|)
      ensures (forall d :: d in old(docs) ==> d.job != job) ==> ok
    {
      inserted, ok := 0, true;
      while inserted < |records|
        invariant inserted <= |records| && Indexed(docs)
        invariant docs == old(docs) + DocsFrom(job, records, 0, inserted)
        decreases |records| - inserted
      {
        var to := if inserted + STAGE_CHUNK_SIZE <= |records| then inserted + STAGE_CHUNK_SIZE else |records|;
        var batch := DocsFrom(job, records, inserted, to);
        NextChunkFits(old(docs), job, records, inserted, to);
        ok := InsertMany(batch);
        if !ok {
          return;
        }
        inserted := to;
      }
    }

    /** The tail of the parse-and-stage step. */
    method Restage(job: nat, records: seq<RawRow>) returns (staged: nat)
      requires Indexed(docs)
      modifies this
      ensures staged == |records| && Indexed(docs)
      ensures docs == Restaged(old(docs), job, records)
      ensures OneForEach(docs, job, records) && SameOthers(old(docs), docs, job)
    {
      OthersIndexed(docs, job);
      RestagedOneForEach(docs, job, records);
      ClearStagedRows(job);
      var ok;
      staged, ok := StageRows(job, records);
    }
  }

  lemma ConflictsStay(docs: seq<Doc>, d: Doc)
    ensures Conflicts(docs + [d], d)
    ensures forall e :: Conflicts(docs, e) ==> Conflicts(docs + [d], e)
  {
    assert (docs + [d])[|docs|] == d;
    forall e | Conflicts(docs, e) ensures Conflicts(docs + [d], e) {
      var k :| 0 <= k < |docs| && docs[k].job == e.job && docs[k].rowIndex == e.rowIndex;
      assert (docs + [d])[k] == docs[k];
    }
  }

  lemma FitsAfter(docs: seq<Doc>, batch: seq<Doc>, k: nat)
    requires k < |batch|
    ensures Indexed(batch) && !Conflicts(docs, batch[k]) ==> !Conflicts(docs + batch[..k], batch[k])
  {
  }

  lemma NextChunkFits(docs: seq<Doc>, job: nat, records: seq<RawRow>, from: nat, to: nat)
    requires from <= to <= |records|
    ensures Indexed(DocsFrom(job, records, from, to))
    ensures docs + DocsFrom(job, records, 0, from) + DocsFrom(job, records, from, to)
         == docs + DocsFrom(job, records, 0, to)
    ensures (forall d :: d in docs ==> d.job != job) ==>
      forall d :: d in DocsFrom(job, records, from, to) ==> !Conflicts(docs + DocsFrom(job, records, 0, from), d)
  {
    assert DocsFrom(job, records, 0, from) + DocsFrom(job, records, from, to) == DocsFrom(job, records, 0, to);
  }

  lemma {:induction false} OthersIn(docs: seq<Doc>, job: nat, d: Doc)
    ensures d in Others(docs, job) <==> d in docs && d.job != job
  {
    if docs != [] {
      var n := |docs| - 1;
      assert docs == docs[..n] + [docs[n]];
      OthersIn(docs[..n], job, d);
    }
  }

  lemma {:induction false} OthersIndexed(docs: seq<Doc>, job: nat)
    requires Indexed(docs)
    ensures Indexed(Others(docs, job))
    ensures forall d :: d in Others(docs, job) ==> d.job != job
  {
    if docs != [] {
      var n := |docs| - 1;
      OthersIndexed(docs[..n], job);
      var less := Others(docs[..n], job);
      forall k | 0 <= k < |less| ensures less[k].job != docs[n].job || less[k].rowIndex != docs[n].rowIndex {
        OthersIn(docs[..n], job, less[k]);
        assert less[k] in docs[..n];
      }
    }
  }

  // -------------------------------------------------------------------- crashes

  /** Where an attempt died: while clearing, with some stale documents still there,
      or while inserting, with some of one chunk in. */
  datatype Cut = WhileClearing(kept: set<nat>) | WhileStaging(chunk: nat, part: set<nat>)

  function Chosen(docs: seq<Doc>, which: set<nat>): seq<Doc> {
    if docs == [] then []
    else
      Chosen(docs[..|docs| - 1], which) + (if |docs| - 1 in which then [docs[|docs| - 1]] else [])
  }

  function OwnDocs(docs: seq<Doc>, job: nat): seq<Doc> {
    if docs == [] then []
    else
      OwnDocs(docs[..|docs| - 1], job) + (if docs[|docs| - 1].job == job then [docs[|docs| - 1]] else [])
  }

  function Capped(n: nat, to: nat): nat {
    if n <= to then n else to
  }

  function AfterCut(docs: seq<Doc>, job: nat, records: seq<RawRow>, c: Cut): seq<Doc> {
    match c
    case WhileClearing(kept) => Others(docs, job) + Chosen(OwnDocs(docs, job), kept)
    case WhileStaging(chunk, part) =>
      var from := Capped(chunk * STAGE_CHUNK_SIZE, |records|);
      var to := Capped(from + STAGE_CHUNK_SIZE, |records|);
      Others(docs, job) + DocsFrom(job, records, 0, from) + Chosen(DocsFrom(job, records, from, to), part)
  }

  function AfterCuts(docs: seq<Doc>, job: nat, records: seq<RawRow>, cuts: seq<Cut>): seq<Doc> {
    if cuts == [] then docs
    else AfterCut(AfterCuts(docs, job, records, cuts[..|cuts| - 1]), job, records, cuts[|cuts| - 1])
  }

  lemma {:induction false} OthersAppend(a: seq<Doc>, b: seq<Doc>, job: nat)
    ensures Others(a + b, job) == Others(a, job) + Others(b, job)
  {
    if b == [] {
      assert a + b == a;
    } else {
      var n := |b| - 1;
      assert (a + b)[..|a + b| - 1] == a + b[..n];
      OthersAppend(a, b[..n], job);
    }
  }

  lemma {:induction false} NoneOfOthers(docs: seq<Doc>, job: nat)
    requires forall d :: d in docs ==> d.job == job
    ensures Others(docs, job) == []
  {
    if docs != [] {
      var n := |docs| - 1;
      assert docs[n] in docs;
      NoneOfOthers(docs[..n], job);
    }
  }

  lemma {:induction false} AllOfOthers(docs: seq<Doc>, job: nat)
    requires forall d :: d in docs ==> d.job != job
    ensures Others(docs, job) == docs
  {
    if docs != [] {
      var n := |docs| - 1;
      assert docs[n] in docs;
      AllOfOthers(docs[..n], job);
    }
  }

  /** What is left are the documents at the chosen places. */
  lemma {:induction false} ChosenIff(docs: seq<Doc>, which: set<nat>, d: Doc)
    ensures d in Chosen(docs, which) <==> exists k: nat :: k < |docs| && k in which && docs[k] == d
  {
    if docs != [] {
      var n := |docs| - 1;
      ChosenIff(docs[..n], which, d);
      assert forall k: nat :: k < n ==> docs[..n][k] == docs[k];
    }
  }

  lemma {:induction false} OwnIn(docs: seq<Doc>, job: nat, d: Doc)
    requires d in OwnDocs(docs, job)
    ensures d.job == job
  {
    var n := |docs| - 1;
    if d in OwnDocs(docs[..n], job) { OwnIn(docs[..n], job, d); }
  }

  lemma OthersOfOthers(docs: seq<Doc>, job: nat, more: seq<Doc>)
    requires forall d :: d in more ==> d.job == job
    ensures Others(Others(docs, job) + more, job) == Others(docs, job)
  {
    OthersAppend(Others(docs, job), more, job);
    NoneOfOthers(more, job);
    forall d | d in Others(docs, job) ensures d.job != job { OthersIn(docs, job, d); }
    AllOfOthers(Others(docs, job), job);
  }

  lemma CutKeepsOthers(docs: seq<Doc>, job: nat, records: seq<RawRow>, c: Cut)
    ensures Others(AfterCut(docs, job, records, c), job) == Others(docs, job)
  {
    match c
    case WhileClearing(kept) =>
      forall d | d in Chosen(OwnDocs(docs, job), kept) ensures d.job == job {
        ChosenIff(OwnDocs(docs, job), kept, d);
        OwnIn(docs, job, d);
      }
      OthersOfOthers(docs, job, Chosen(OwnDocs(docs, job), kept));
    case WhileStaging(chunk, part) =>
      var from := Capped(chunk * STAGE_CHUNK_SIZE, |records|);
      var to := Capped(from + STAGE_CHUNK_SIZE, |records|);
      var full := DocsFrom(job, records, 0, from);
      var rest := Chosen(DocsFrom(job, records, from, to), part);
      forall d | d in rest ensures d.job == job { ChosenIff(DocsFrom(job, records, from, to), part, d); }
      assert AfterCut(docs, job, records, c) == Others(docs, job) + (full + rest);
      OthersOfOthers(docs, job, full + rest);
  }

  lemma {:induction false} CutsKeepOthers(docs: seq<Doc>, job: nat, records: seq<RawRow>, cuts: seq<Cut>)
    ensures Others(AfterCuts(docs, job, records, cuts), job) == Others(docs, job)
  {
    if cuts != [] {
      var n := |cuts| - 1;
      CutsKeepOthers(docs, job, records, cuts[..n]);
      CutKeepsOthers(AfterCuts(docs, job, records, cuts[..n]), job, records, cuts[n]);
    }
  }

  /** What an uninterrupted attempt leaves. */
  function Restaged(docs: seq<Doc>, job: nat, records: seq<RawRow>): seq<Doc> {
    Others(docs, job) + DocsFrom(job, records, 0, |records|)
  }

  lemma RestagedOneForEach(docs: seq<Doc>, job: nat, records: seq<RawRow>)
    ensures OneForEach(Restaged(docs, job, records), job, records)
    ensures SameOthers(docs, Restaged(docs, job, records), job)
  {
    var kept, own := Others(docs, job), DocsFrom(job, records, 0, |records|);
    forall d ensures d in kept <==> d in docs && d.job != job { OthersIn(docs, job, d); }
    assert forall k: nat :: k < |records| ==> (kept + own)[|kept| + k] == own[k];
    assert OthersThenEach(kept + own, |kept|, job, records);
  }

  lemma {:induction false} NoneOwn(a: seq<Doc>, job: nat)
    requires forall d :: d in a ==> d.job != job
    ensures OwnDocs(a, job) == []
  {
    if a != [] {
      var n := |a| - 1;
      assert a[n] in a;
      NoneOwn(a[..n], job);
    }
  }

  lemma {:induction false} OwnOfAppend(a: seq<Doc>, b: seq<Doc>, job: nat)
    requires (forall d :: d in a ==> d.job != job) && (forall d :: d in b ==> d.job == job)
    ensures OwnDocs(a + b, job) == b
    decreases b
  {
    if b == [] {
      ConcatEmpty(a);
      NoneOwn(a, job);
    } else {
      var n := |b| - 1;
      SplitLast(b);
      ConcatAssoc(a, b[..n], [b[n]]);
      OwnOfAppend(a, b[..n], job);
      OwnSnoc(a + b[..n], b[n], job);
    }
  }

  lemma OwnSnoc(docs: seq<Doc>, d: Doc, job: nat)
    ensures OwnDocs(docs + [d], job) == OwnDocs(docs, job) + if d.job == job then [d] else []
  {
    assert (docs + [d])[..|docs|] == docs;
  }

  /** After any number of crashed attempts a retry leaves what one clean attempt
      would have: other imports untouched, and of this one exactly one document for
      each record, indexes from zero, in record order. */
  lemma RestageAfterCrashes(docs: seq<Doc>, job: nat, records: seq<RawRow>, cuts: seq<Cut>)
    ensures var r := Restaged(AfterCuts(docs, job, records, cuts), job, records);
      && r == Restaged(docs, job, records)
      && Others(r, job) == Others(docs, job)
      && OwnDocs(r, job) == DocsFrom(job, records, 0, |records|)
      && OneForEach(r, job, records) && SameOthers(docs, r, job)
  {
    RestagedOneForEach(docs, job, records);
    CutsKeepOthers(docs, job, records, cuts);
    OthersOfOthers(docs, job, DocsFrom(job, records, 0, |records|));
    forall d | d in Others(docs, job) ensures d.job != job { OthersIn(docs, job, d); }
    OwnOfAppend(Others(docs, job), DocsFrom(job, records, 0, |records|), job);
  }

  // ------------------------------------------------------- on to the next steps

  /** The staged rows, with the defaults of their schema and the store's addresses. */
  function Opened(docs: seq<Doc>): seq<Row> {
    seq(|docs|, i requires 0 <= i < |docs| =>
      Row(i, docs[i].job, docs[i].rowIndex, docs[i].rawRow, docs[i].rawRow, map[],
          Unvalidated, [], Pending, None, None))
  }

  /** A row as staging leaves it: all columns still custom fields, nothing decided. */
  ghost predicate FreshRow(r: Row, job: nat, k: nat, record: RawRow) {
    && r.job == job && r.rowIndex == k && r.rawRow == record
    && r.customFields == record && r.mappedFields == map[]
    && r.validation.Unvalidated? && r.errors == []
    && r.commit.Pending? && r.entity.None? && r.commitError.None?
  }

  ghost predicate RowForEach(rows: seq<Row>, job: nat, records: seq<RawRow>) {
    exists n: nat :: n + |records| == |rows| && OthersThenRows(rows, n, job, records)
  }

  ghost predicate OthersThenRows(rows: seq<Row>, n: nat, job: nat, records: seq<RawRow>)
    requires n + |records| == |rows|
  {
    && (forall i :: 0 <= i < n ==> rows[i].job != job)
    && (forall k: nat :: k < |records| ==> FreshRow(rows[n + k], job, k, records[k]))
  }

  /** What staging hands on is what validation and commit start from, with a fresh row
      for each record in record order. */
  lemma StagedRowsAreFresh(docs: seq<Doc>, job: nat, records: seq<RawRow>)
    requires Indexed(docs)
    ensures var rows := Opened(docs);
      && Addressed(rows) && UniqueRowIndex(rows, job)
      && (forall r :: r in rows ==> r.commit.Pending?)
      && (OneForEach(docs, job, records) ==> RowForEach(rows, job, records))
  {
    if OneForEach(docs, job, records) {
      OpenedOneForEach(docs, job, records);
    }
  }

  lemma OpenedOneForEach(docs: seq<Doc>, job: nat, records: seq<RawRow>)
    requires OneForEach(docs, job, records)
    ensures RowForEach(Opened(docs), job, records)
  {
    var n: nat :| n + |records| == |docs| && OthersThenEach(docs, n, job, records);
    assert OthersThenRows(Opened(docs), n, job, records);
  }
}
