/** Applying a field map: the whitelist and duplicate checks, the split of every
    raw row into mapped and custom fields, and the chunked write-back. */
module ApplyMapping {
  import opened Wrappers
  import opened StagedRows
  import opened JobStore
  import opened BulkUpdates
  import opened TargetSchema
  import opened SuggestMapping
  import opened ImportJobs

  /** What coercing a cell to a field's type gives; it may also throw. */
  datatype Coerced = Value(text: string) | Nothing | Throws

  /** The names that every plain object has without owning them. */
  const INHERITED: set<string> := {
    "constructor", "hasOwnProperty", "isPrototypeOf", "propertyIsEnumerable", "toLocaleString", "toString", "valueOf",
    "__proto__", "__defineGetter__", "__defineSetter__", "__lookupGetter__", "__lookupSetter__"}

  /** What reading a column of a row finds: a cell, or else what the name inherits. */
  datatype Slot = Own(cell: Cell) | Inherited(name: string)

  function SlotOf(raw: RawRow, column: string): Option<Slot> {
    if column in raw then Some(Own(raw[column]))
    else if column in INHERITED then Some(Inherited(column))
    else None
  }

  type Coercion = (FieldType, Slot) -> Coerced

  /** The entries of a field map: source column, target key. */
  type FieldMap = seq<(string, string)>

  /** The map is a plain object, so its columns are distinct. */
  predicate DistinctColumns(m: FieldMap) {
    forall i, j :: 0 <= i < j < |m| ==> m[i].0 != m[j].0
  }

  predicate DistinctTargets(m: FieldMap) {
    forall i, j :: 0 <= i < j < |m| ==> m[i].1 != m[j].1
  }

  ghost predicate Declares(fields: seq<Field>, key: string) {
    exists k :: 0 <= k < |fields| && fields[k].key == key
  }

  function FieldKeys(fields: seq<Field>): (keys: set<string>)
    ensures forall key :: key in keys <==> Declares(fields, key)
  {
    set k | 0 <= k < |fields| :: fields[k].key
  }

  ghost predicate KnownTargets(m: FieldMap, fields: seq<Field>) {
    forall i :: 0 <= i < |m| ==> Declares(fields, m[i].1)
  }

  /** The last field with this key, as in the source's map by key. */
  function KindOf(fields: seq<Field>, key: string): FieldType {
    if fields == [] then StringType
    else if fields[|fields| - 1].key == key then fields[|fields| - 1].kind
    else KindOf(fields[..|fields| - 1], key)
  }

  /** Mapped and remaining custom fields of a raw row, entry by entry. */
  function Split(raw: RawRow, m: FieldMap, fields: seq<Field>, coerce: Coercion): (Fields, RawRow) {
    if m == [] then (map[], raw)
    else
      var n := |m| - 1;
      var (mapped, rest) := Split(raw, m[..n], fields, coerce);
      var slot := SlotOf(rest, m[n].0);
      if slot.None? then (mapped, rest)
      else
        var c := coerce(KindOf(fields, m[n].1), slot.value);
        (if c.Value? then mapped[m[n].1 := c.text] else mapped, rest - {m[n].0})
  }

  function Columns(m: FieldMap): set<string> {
    set e | e in m :: e.0
  }

  function MappingOf(r: Row, m: FieldMap, fields: seq<Field>, coerce: Coercion): Change {
    var (mapped, rest) := Split(r.rawRow, m, fields, coerce);
    SetMapping(mapped, rest)
  }

  function Mappings(rows: seq<Row>, m: FieldMap, fields: seq<Field>, coerce: Coercion): Plan {
    seq(|rows|, i requires 0 <= i < |rows| => MappingOf(rows[i], m, fields, coerce))
  }

  function MappedRows(rows: seq<Row>, job: nat, m: FieldMap, fields: seq<Field>, coerce: Coercion): seq<Row> {
    Done(rows, Mappings(rows, m, fields, coerce), job)
  }

  // ----------------------------------------------------- what the split means

  /** Custom fields are exactly the raw columns outside the map. */
  lemma {:induction false} CustomFieldsAreTheRest(raw: RawRow, m: FieldMap, fields: seq<Field>, coerce: Coercion)
    ensures Split(raw, m, fields, coerce).1 == map c | c in raw && c !in Columns(m) :: raw[c]
  {
    if m != [] {
      var n := |m| - 1;
      CustomFieldsAreTheRest(raw, m[..n], fields, coerce);
      assert m == m[..n] + [m[n]];
      assert Columns(m) == Columns(m[..n]) + {m[n].0};
    }
  }

  /** What an entry of the map makes of a row. */
  function Found(raw: RawRow, fields: seq<Field>, coerce: Coercion, entry: (string, string)): Coerced {
    var slot := SlotOf(raw, entry.0);
    if slot.Some? then coerce(KindOf(fields, entry.1), slot.value) else Nothing
  }

  /** The last entry finds what it would find in the whole row, since no other entry
      has taken its column. */
  lemma LastEntry(raw: RawRow, m: FieldMap, fields: seq<Field>, coerce: Coercion)
    requires m != [] && DistinctColumns(m)
    ensures var n := |m| - 1;
      var mapped, c := Split(raw, m[..n], fields, coerce).0, Found(raw, fields, coerce, m[n]);
      Split(raw, m, fields, coerce).0 == if c.Value? then mapped[m[n].1 := c.text] else mapped
  {
    var n := |m| - 1;
    CustomFieldsAreTheRest(raw, m[..n], fields, coerce);
    LastColumnIsNew(m);
    assert SlotOf(Split(raw, m[..n], fields, coerce).1, m[n].0) == SlotOf(raw, m[n].0);
  }

  /** A target key is mapped exactly when one of the entries names it, its column is
      found in the row, and the coercion gave a value, which is then the value mapped. */
  lemma {:induction false} MappedFieldsAreTheCoerced(raw: RawRow, m: FieldMap, fields: seq<Field>, coerce: Coercion,
                                                     key: string)
    requires DistinctColumns(m) && DistinctTargets(m)
    ensures var mapped := Split(raw, m, fields, coerce).0;
      && (key in mapped ==> exists k :: 0 <= k < |m| && m[k].1 == key)
      && forall k :: 0 <= k < |m| && m[k].1 == key ==>
           var c := Found(raw, fields, coerce, m[k]);
           && (key in mapped <==> c.Value?)
           && (c.Value? ==> mapped[key] == c.text)
  {
    if m != [] {
      var n := |m| - 1;
      MappedFieldsAreTheCoerced(raw, m[..n], fields, coerce, key);
      LastEntry(raw, m, fields, coerce);
      assert m[n].1 == key ==> key !in Split(raw, m[..n], fields, coerce).0;
    }
  }

  lemma LastColumnIsNew(m: FieldMap)
    requires m != [] && DistinctColumns(m)
    ensures m[|m| - 1].0 !in Columns(m[..|m| - 1])
  {
  }

  // ------------------------------------------- the outcome, said of the rows

  /** Field `k` is the last that declares the key. */
  ghost predicate LastDeclares(fields: seq<Field>, k: nat, key: string) {
    && k < |fields| && fields[k].key == key
    && forall j :: k < j < |fields| ==> fields[j].key != key
  }

  ghost predicate Holds(mapped: Fields, key: string, c: Coerced) {
    if c.Value? then key in mapped && mapped[key] == c.text else key !in mapped
  }

  /** What one entry of the map leaves under its target key. */
  ghost predicate EntryMapped(raw: RawRow, mapped: Fields, column: string, f: Field, coerce: Coercion) {
    if column in raw then Holds(mapped, f.key, coerce(f.kind, Own(raw[column])))
    else if column in INHERITED then Holds(mapped, f.key, coerce(f.kind, Inherited(column)))
    else f.key !in mapped
  }

  /** The row keeps everything but its two parts: custom fields are the raw cells of the
      columns that the map leaves out, mapped fields the coerced cells of its entries. */
  ghost predicate RowMapped(before: Row, after: Row, m: FieldMap, fields: seq<Field>, coerce: Coercion) {
    && after == before.(mappedFields := after.mappedFields, customFields := after.customFields)
    && (forall c :: c in after.customFields <==> c in before.rawRow && forall k :: 0 <= k < |m| ==> m[k].0 != c)
    && (forall c :: c in after.customFields ==> after.customFields[c] == before.rawRow[c])
    && (forall key :: key in after.mappedFields ==> exists k :: 0 <= k < |m| && m[k].1 == key)
    && (forall k, f: nat :: 0 <= k < |m| && LastDeclares(fields, f, m[k].1) ==>
          EntryMapped(before.rawRow, after.mappedFields, m[k].0, fields[f], coerce))
  }

  ghost predicate RowsMapped(
    before: seq<Row>, after: seq<Row>, job: nat, m: FieldMap, fields: seq<Field>, coerce: Coercion
  ) {
    && |after| == |before|
    && forall i :: 0 <= i < |before| ==>
         if before[i].job == job then RowMapped(before[i], after[i], m, fields, coerce) else after[i] == before[i]
  }

  lemma ColumnsIff(m: FieldMap, c: string)
    ensures c !in Columns(m) <==> forall k :: 0 <= k < |m| ==> m[k].0 != c
  {
    if c in Columns(m) {
      var e :| e in m && e.0 == c;
    } else {
      forall k | 0 <= k < |m| ensures m[k].0 != c {
        assert m[k] in m;
      }
    }
  }

  lemma SplitEntries(raw: RawRow, m: FieldMap, fields: seq<Field>, coerce: Coercion)
    requires DistinctColumns(m) && DistinctTargets(m)
    ensures var mapped := Split(raw, m, fields, coerce).0;
      && (forall key :: key in mapped ==> exists k :: 0 <= k < |m| && m[k].1 == key)
      && (forall k, f: nat :: 0 <= k < |m| && LastDeclares(fields, f, m[k].1) ==>
            EntryMapped(raw, mapped, m[k].0, fields[f], coerce))
  {
    var mapped := Split(raw, m, fields, coerce).0;
    forall key | key in mapped ensures exists k :: 0 <= k < |m| && m[k].1 == key {
      MappedFieldsAreTheCoerced(raw, m, fields, coerce, key);
    }
    forall k, f: nat | 0 <= k < |m| && LastDeclares(fields, f, m[k].1)
      ensures EntryMapped(raw, mapped, m[k].0, fields[f], coerce)
    {
      MappedFieldsAreTheCoerced(raw, m, fields, coerce, m[k].1);
      KindOfIsLast(fields, f);
    }
  }

  lemma RowOutcome(row: Row, m: FieldMap, fields: seq<Field>, coerce: Coercion)
    requires DistinctColumns(m) && DistinctTargets(m)
    ensures RowMapped(row, Changed(row, MappingOf(row, m, fields, coerce)), m, fields, coerce)
  {
    CustomFieldsAreTheRest(row.rawRow, m, fields, coerce);
    forall c ensures c !in Columns(m) <==> forall k :: 0 <= k < |m| ==> m[k].0 != c {
      ColumnsIff(m, c);
    }
    SplitEntries(row.rawRow, m, fields, coerce);
  }

  /** After the pass every row of the import is mapped, and no other row is touched. */
  lemma MappedRowsOutcome(rows: seq<Row>, job: nat, m: FieldMap, fields: seq<Field>, coerce: Coercion)
    requires DistinctColumns(m) && DistinctTargets(m)
    ensures RowsMapped(rows, MappedRows(rows, job, m, fields, coerce), job, m, fields, coerce)
  {
    forall i | 0 <= i < |rows| && rows[i].job == job
      ensures RowMapped(rows[i], MappedRows(rows, job, m, fields, coerce)[i], m, fields, coerce)
    {
      RowOutcome(rows[i], m, fields, coerce);
    }
  }

  /** Raw rows are untouched, so mapping again starts from the same source: the
      second map alone decides. */
  lemma RemappingForgetsTheFirst(rows: seq<Row>, job: nat, fields1: seq<Field>, m1: FieldMap,
                                 fields2: seq<Field>, m2: FieldMap, coerce: Coercion)
    ensures MappedRows(MappedRows(rows, job, m1, fields1, coerce), job, m2, fields2, coerce)
         == MappedRows(rows, job, m2, fields2, coerce)
    ensures forall i :: 0 <= i < |rows| ==> MappedRows(rows, job, m1, fields1, coerce)[i].rawRow == rows[i].rawRow
  {
    var once := MappedRows(rows, job, m1, fields1, coerce);
    forall i | 0 <= i < |rows|
      ensures once[i].job == rows[i].job && once[i].rawRow == rows[i].rawRow
      ensures MappingOf(once[i], m2, fields2, coerce) == MappingOf(rows[i], m2, fields2, coerce)
    {
    }
    assert Mappings(once, m2, fields2, coerce) == Mappings(rows, m2, fields2, coerce);
  }

  // -------------------------------------------------------------- the checks

  datatype MapError =
    | WrongStatus(status: JobStatus)
    | UnknownTargets(keys: set<string>)
    | DuplicateTargets(keys: set<string>)

  method CheckTargets(m: FieldMap, fields: seq<Field>) returns (e: Option<MapError>)
    ensures e.None? <==> KnownTargets(m, fields) && DistinctTargets(m)
    ensures e.Some? && e.value.UnknownTargets? ==>
      && !KnownTargets(m, fields)
      && e.value.keys == set k | 0 <= k < |m| && m[k].1 !in FieldKeys(fields) :: m[k].1
    ensures e.Some? && e.value.DuplicateTargets? ==>
      && KnownTargets(m, fields)
      && e.value.keys == set j, k | 0 <= j < k < |m| && m[j].1 == m[k].1 :: m[k].1
    ensures e.Some? ==> !e.value.WrongStatus?
  {
    var unknown := set k | 0 <= k < |m| && m[k].1 !in FieldKeys(fields) :: m[k].1;
    assert forall k :: 0 <= k < |m| && m[k].1 !in FieldKeys(fields) ==> m[k].1 in unknown;
    if unknown != {} {
      return Some(UnknownTargets(unknown));
    }
    var twice := set j, k | 0 <= j < k < |m| && m[j].1 == m[k].1 :: m[k].1;
    assert DistinctTargets(m) <==> twice == {} by {
      assert forall j, k :: 0 <= j < k < |m| && m[j].1 == m[k].1 ==> m[k].1 in twice;
    }
    if twice != {} {
      return Some(DuplicateTargets(twice));
    }
    return None;
  }

  // ------------------------------------------------------------- the methods

  /** The split of one row, column after column. */
  method SplitRow(raw: RawRow, m: FieldMap, fields: seq<Field>, coerce: Coercion)
    returns (mapped: Fields, rest: RawRow)
    ensures (mapped, rest) == Split(raw, m, fields, coerce)
  {
    mapped, rest := map[], raw;
    for k := 0 to |m|
      invariant (mapped, rest) == Split(raw, m[..k], fields, coerce)
    {
      assert m[..k + 1][..k] == m[..k];
      var slot := SlotOf(rest, m[k].0);
      if slot.Some? {
        var c := coerce(KindOf(fields, m[k].1), slot.value);
        if c.Value? {
          mapped := mapped[m[k].1 := c.text];
        }
        rest := rest - {m[k].0};
      }
    }
    assert m[..|m|] == m;
  }

  /** The update of one row. */
  method MapRow(row: Row, m: FieldMap, fields: seq<Field>, coerce: Coercion) returns (op: Op)
    ensures op == Op(row.id, MappingOf(row, m, fields, coerce))
  {
    var mapped, rest := SplitRow(row.rawRow, m, fields, coerce);
    op := Op(row.id, SetMapping(mapped, rest));
  }

  /** One turn of the cursor pass: buffer and counter after row `n`. */
  method MapTurn(rows: seq<Row>, job: nat, m: FieldMap, fields: seq<Field>, coerce: Coercion, n: nat,
                 ghost plan: Plan, ghost flushed: nat, ops: seq<Op>, processed: nat)
    returns (ops': seq<Op>, processed': nat)
    requires Addressed(rows) && flushed <= n < |rows| == |plan|
    requires plan[n] == MappingOf(rows[n], m, fields, coerce) && ops == OpsOf(rows, plan, job, flushed, n)
    ensures ops' == OpsOf(rows, plan, job, flushed, n + 1) && processed' - processed == |ops'| - |ops|
  {
    OpsSnoc(rows, plan, job, flushed, n + 1);
    if rows[n].job != job {
      return ops, processed;
    }
    var op := MapRow(rows[n], m, fields, coerce);
    return ops + [op], processed + 1;
  }

  /** The cursor pass: one update for each row, flushed at 500. */
  method MapRows(store: Store, job: nat, m: FieldMap, fields: seq<Field>, coerce: Coercion, ghost plan: Plan)
    returns (processed: nat, ghost writes: seq<Op>)
    requires store.Valid() && |plan| == |store.rows|
    requires forall n :: 0 <= n < |plan| ==> plan[n] == MappingOf(store.rows[n], m, fields, coerce)
    modifies store
    ensures store.Valid() && store.rows == Done(old(store.rows), plan, job)
    ensures writes == OpsOf(old(store.rows), plan, job, 0, |plan|) && processed == |writes|
  {
    var rows := store.rows;
    var ops: seq<Op> := [];
    ghost var flushed := 0;
    processed, writes := 0, [];
    assert Halfway(rows, plan, job, 0) == rows;
    for n := 0 to |rows|
      invariant 0 <= flushed <= n && Addressed(rows)
      invariant store.Valid() && store.rows == Halfway(rows, plan, job, flushed)
      invariant ops == OpsOf(rows, plan, job, flushed, n)
      invariant writes == OpsOf(rows, plan, job, 0, flushed)
      invariant processed == |writes| + |ops|
    {
      ops, processed := MapTurn(rows, job, m, fields, coerce, n, plan, flushed, ops, processed);
      ops, flushed, writes := FlushIfFull(store, rows, plan, job, flushed, n + 1, ops, writes);
    }
    Flush(store, rows, plan, job, flushed, |rows|, ops);
    writes := writes + ops;
  }

  method Apply(store: Store, importJob: ImportJob, m: FieldMap, fields: seq<Field>, coerce: Coercion)
    returns (e: Option<MapError>)
    requires store.Valid() && DistinctColumns(m)
    modifies store, importJob`status
    ensures store.Valid()
    ensures e.Some? ==> store.rows == old(store.rows) && importJob.status == old(importJob.status)
    ensures var mappable := old(importJob.status).StagedStatus? || old(importJob.status).Mapped?;
      && (!mappable ==> e == Some(WrongStatus(old(importJob.status))))
      && (mappable && !KnownTargets(m, fields) ==>
            e == Some(UnknownTargets(set k | 0 <= k < |m| && m[k].1 !in FieldKeys(fields) :: m[k].1)))
      && (mappable && KnownTargets(m, fields) && !DistinctTargets(m) ==>
            e == Some(DuplicateTargets(set j, k | 0 <= j < k < |m| && m[j].1 == m[k].1 :: m[k].1)))
      && (mappable && KnownTargets(m, fields) && DistinctTargets(m) ==> e == None)
    ensures e.None? ==>
      && importJob.status.Mapped?
      && store.rows == MappedRows(old(store.rows), importJob.id, m, fields, coerce)
      && RowsMapped(old(store.rows), store.rows, importJob.id, m, fields, coerce)
  {
    if importJob.status != StagedStatus && importJob.status != Mapped {
      return Some(WrongStatus(importJob.status));
    }
    e := CheckTargets(m, fields);
    if e.Some? {
      return;
    }
    ghost var plan := Mappings(store.rows, m, fields, coerce);
    ghost var writes;
    var processed;
    processed, writes := MapRows(store, importJob.id, m, fields, coerce, plan);
    importJob.status := Mapped;
    MappedRowsOutcome(old(store.rows), importJob.id, m, fields, coerce);
  }

  // ------------------------------------------------- suggestions are acceptable

  /** The field map made of the columns that got a suggestion. */
  function FieldMapOf(out: seq<Suggestion>): FieldMap {
    if out == [] then []
    else
      var s := out[|out| - 1];
      FieldMapOf(out[..|out| - 1]) + (if s.target.Some? then [(s.column, s.target.value)] else [])
  }

  /** The suggestion an entry comes from. */
  ghost function Origin(out: seq<Suggestion>, k: nat): nat
    requires k < |FieldMapOf(out)|
  {
    if k < |FieldMapOf(out[..|out| - 1])| then Origin(out[..|out| - 1], k) else |out| - 1
  }

  lemma {:induction false} OriginSpec(out: seq<Suggestion>, k: nat)
    requires k < |FieldMapOf(out)|
    ensures var i := Origin(out, k);
      i < |out| && out[i].target.Some? && FieldMapOf(out)[k] == (out[i].column, out[i].target.value)
  {
    var n := |out| - 1;
    if k < |FieldMapOf(out[..n])| { OriginSpec(out[..n], k); }
  }

  /** Every suggestion with a target is in the map. */
  lemma {:induction false} SuggestedIsMapped(out: seq<Suggestion>, i: nat)
    requires i < |out| && out[i].target.Some?
    ensures (out[i].column, out[i].target.value) in FieldMapOf(out)
  {
    var n := |out| - 1;
    if i < n { SuggestedIsMapped(out[..n], i); }
  }

  lemma AllSuggestedAreMapped(out: seq<Suggestion>)
    ensures forall i :: 0 <= i < |out| && out[i].target.Some? ==>
      (out[i].column, out[i].target.value) in FieldMapOf(out)
  {
    forall i | 0 <= i < |out| && out[i].target.Some?
      ensures (out[i].column, out[i].target.value) in FieldMapOf(out)
    {
      SuggestedIsMapped(out, i);
    }
  }

  lemma {:induction false} OriginIncreases(out: seq<Suggestion>, j: nat, k: nat)
    requires j < k < |FieldMapOf(out)|
    ensures Origin(out, j) < Origin(out, k)
  {
    var n := |out| - 1;
    if k < |FieldMapOf(out[..n])| {
      OriginIncreases(out[..n], j, k);
    } else {
      OriginSpec(out[..n], j);
    }
  }

  /** A field map built from the suggestions for distinct columns always passes, and it
      has all of them. */
  lemma SuggestionsPass(fields: seq<Field>, out: seq<Suggestion>)
    requires forall i :: 0 <= i < |out| ==> SuggestionOk(Candidates(fields), Claimed(out, i), out[i])
    requires forall i, j :: 0 <= i < j < |out| ==> out[i].column != out[j].column
    ensures var m := FieldMapOf(out); DistinctColumns(m) && DistinctTargets(m) && KnownTargets(m, fields)
    ensures forall i :: 0 <= i < |out| && out[i].target.Some? ==>
      (out[i].column, out[i].target.value) in FieldMapOf(out)
  {
    var m := FieldMapOf(out);
    AllSuggestedAreMapped(out);
    forall k | 0 <= k < |m| ensures Declares(fields, m[k].1) {
      KnownOrigin(fields, out, k);
    }
    forall j, k | 0 <= j < k < |m| ensures m[j].0 != m[k].0 && m[j].1 != m[k].1 {
      EntriesDiffer(fields, out, j, k);
    }
  }

  lemma EntriesDiffer(fields: seq<Field>, out: seq<Suggestion>, j: nat, k: nat)
    requires forall i :: 0 <= i < |out| ==> SuggestionOk(Candidates(fields), Claimed(out, i), out[i])
    requires forall i, j :: 0 <= i < j < |out| ==> out[i].column != out[j].column
    requires j < k < |FieldMapOf(out)|
    ensures var m := FieldMapOf(out); m[j].0 != m[k].0 && m[j].1 != m[k].1
  {
    OriginSpec(out, j);
    OriginSpec(out, k);
    OriginIncreases(out, j, k);
    TargetsAreDistinct(Candidates(fields), out, Origin(out, j), Origin(out, k));
  }

  lemma KnownOrigin(fields: seq<Field>, out: seq<Suggestion>, k: nat)
    requires forall i :: 0 <= i < |out| ==> SuggestionOk(Candidates(fields), Claimed(out, i), out[i])
    requires k < |FieldMapOf(out)|
    ensures Declares(fields, FieldMapOf(out)[k].1)
  {
    OriginSpec(out, k);
    var i := Origin(out, k);
    TargetsAreFields(fields, Claimed(out, i), out[i]);
  }

  /** A key's type is that of the last field declared with it. */
  lemma {:induction false} KindOfIsLast(fields: seq<Field>, k: nat)
    requires k < |fields| && forall j :: k < j < |fields| ==> fields[j].key != fields[k].key
    ensures KindOf(fields, fields[k].key) == fields[k].kind
  {
    var n := |fields| - 1;
    if k < n { KindOfIsLast(fields[..n], k); }
  }

  // ------------------------------------------------------------ a concrete case

  /** A row without any column, mapped by a column called `toString`: the text of the
      inherited function ends up in the field of every such row. */
  lemma InheritedExample(fields: seq<Field>, coerce: Coercion, text: string)
    requires coerce(KindOf(fields, "notes"), Inherited("toString")) == Value(text)
    ensures Split(map[], [("toString", "notes")], fields, coerce) == (map["notes" := text], map[])
  {
    var m: FieldMap := [("toString", "notes")];
    assert m[..0] == [];
    assert Split(map[], m[..0], fields, coerce) == (map[], map[]);
  }
}
