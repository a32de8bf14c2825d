/** Whole-file validation: required and enum checks, the two-pass duplicate check,
    existing identities and references, written back in chunks of 500. */
module Validation {
  import opened Wrappers
  import opened Sequences
  import opened StagedRows
  import opened JobStore
  import opened BulkUpdates
  import opened TargetSchema
  import opened ImportJobs

  /** The descriptor's part in validation. `lookups` holds the values that each
      reference field may take, when the descriptor declares reference fields;
      `findExisting` is its query for identities the target already has. */
  datatype Rules = Rules(
    fields: seq<Field>, identityField: string,
    referenceFields: seq<string>, lookups: map<string, set<string>>,
    findExisting: Option<set<string> -> set<string>>)

  predicate Blank(m: Fields, key: string) {
    key !in m || m[key] == ""
  }

  function RequiredErrors(fields: seq<Field>, m: Fields): seq<ValidationError> {
    if fields == [] then []
    else
      (if fields[0].required && Blank(m, fields[0].key) then [Required(fields[0].key)] else [])
      + RequiredErrors(fields[1..], m)
  }

  predicate OutsideEnum(f: Field, m: Fields) {
    f.options != [] && !Blank(m, f.key) && m[f.key] !in f.options
  }

  function EnumErrors(fields: seq<Field>, m: Fields): seq<ValidationError> {
    if fields == [] then []
    else
      (if OutsideEnum(fields[0], m) then [NotInEnum(fields[0].key, m[fields[0].key])] else [])
      + EnumErrors(fields[1..], m)
  }

  predicate Dangling(key: string, lookups: map<string, set<string>>, m: Fields) {
    key in m && !(key in lookups && m[key] in lookups[key])
  }

  function ReferenceErrors(keys: seq<string>, lookups: map<string, set<string>>, m: Fields): seq<ValidationError> {
    if keys == [] then []
    else
      (if Dangling(keys[0], lookups, m) then [ReferenceNotFound(keys[0], m[keys[0]])] else [])
      + ReferenceErrors(keys[1..], lookups, m)
  }

  function IdentityErrors(repeated: bool, exists_: bool): seq<ValidationError> {
    (if repeated then [DuplicateInFile] else []) + (if exists_ then [AlreadyExists] else [])
  }

  function IdentityOf(r: Row, rules: Rules): Option<string> {
    if rules.identityField in r.mappedFields then Some(r.mappedFields[rules.identityField]) else None
  }

  /** The identities that occur in the import. */
  function Identities(rows: seq<Row>, job: nat, rules: Rules): set<string> {
    set r | r in rows && r.job == job && IdentityOf(r, rules).Some? :: IdentityOf(r, rules).value
  }

  function Existing(rows: seq<Row>, job: nat, rules: Rules): set<string> {
    match rules.findExisting
    case None => {}
    case Some(find) => find(Identities(rows, job, rules))
  }

  /** An earlier row of the import has the same identity. */
  predicate Repeated(rows: seq<Row>, job: nat, rules: Rules, i: nat)
    requires i < |rows|
  {
    && IdentityOf(rows[i], rules).Some?
    && exists j :: 0 <= j < i && rows[j].job == job && IdentityOf(rows[j], rules) == IdentityOf(rows[i], rules)
  }

  function ErrorsOf(r: Row, rules: Rules, repeated: bool, existing: set<string>): seq<ValidationError> {
    var m := r.mappedFields;
    RequiredErrors(rules.fields, m) + EnumErrors(rules.fields, m)
    + IdentityErrors(repeated, IdentityOf(r, rules).Some? && IdentityOf(r, rules).value in existing)
    + ReferenceErrors(rules.referenceFields, rules.lookups, m)
  }

  /** The verdict on row `i`, with the duplicate check done the naive way. */
  function VerdictOn(rows: seq<Row>, job: nat, rules: Rules, i: nat): Change
    requires i < |rows|
  {
    SetVerdict(ErrorsOf(rows[i], rules, Repeated(rows, job, rules, i), Existing(rows, job, rules)))
  }

  function Verdicts(rows: seq<Row>, job: nat, rules: Rules): Plan {
    seq(|rows|, i requires 0 <= i < |rows| => VerdictOn(rows, job, rules, i))
  }

  function ValidatedRows(rows: seq<Row>, job: nat, rules: Rules): seq<Row> {
    Done(rows, Verdicts(rows, job, rules), job)
  }

  // ------------------------------------------------------------ the grouping

  function CountOf(rows: seq<Row>, job: nat, rules: Rules, v: string): nat {
    if rows == [] then 0
    else
      CountOf(rows[..|rows| - 1], job, rules, v)
      + (if rows[|rows| - 1].job == job && IdentityOf(rows[|rows| - 1], rules) == Some(v) then 1 else 0)
  }

  /** The grouping query: identities that occur more than once. */
  function DuplicateIdentities(rows: seq<Row>, job: nat, rules: Rules): set<string> {
    set v | v in Identities(rows, job, rules) && CountOf(rows, job, rules, v) > 1
  }

  lemma {:induction false} CountPositive(rows: seq<Row>, job: nat, rules: Rules, i: nat)
    requires i < |rows| && rows[i].job == job && IdentityOf(rows[i], rules).Some?
    ensures CountOf(rows, job, rules, IdentityOf(rows[i], rules).value) > 0
  {
    if i < |rows| - 1 { CountPositive(rows[..|rows| - 1], job, rules, i); }
  }

  lemma {:induction false} CountTwo(rows: seq<Row>, job: nat, rules: Rules, j: nat, i: nat)
    requires j < i < |rows| && rows[i].job == job && rows[j].job == job
    requires IdentityOf(rows[i], rules).Some? && IdentityOf(rows[j], rules) == IdentityOf(rows[i], rules)
    ensures CountOf(rows, job, rules, IdentityOf(rows[i], rules).value) > 1
  {
    var n := |rows| - 1;
    if i < n {
      CountTwo(rows[..n], job, rules, j, i);
    } else {
      CountPositive(rows[..n], job, rules, j);
    }
  }

  /** What the grouped check has to remember after the first `n` rows: the repeated
      identities it has met. */
  ghost predicate SeenOk(rows: seq<Row>, job: nat, rules: Rules, n: nat, seen: set<string>)
    requires n <= |rows|
  {
    forall v :: v in seen <==>
      && v in DuplicateIdentities(rows, job, rules)
      && exists j :: 0 <= j < n && rows[j].job == job && IdentityOf(rows[j], rules) == Some(v)
  }

  /** The grouped check with a seen-set flags a row exactly when the naive one does. */
  lemma GroupedCheckIsNaive(rows: seq<Row>, job: nat, rules: Rules, i: nat, seen: set<string>)
    requires i < |rows| && rows[i].job == job && SeenOk(rows, job, rules, i, seen)
    ensures Repeated(rows, job, rules, i) <==>
      && IdentityOf(rows[i], rules).Some?
      && IdentityOf(rows[i], rules).value in DuplicateIdentities(rows, job, rules)
      && IdentityOf(rows[i], rules).value in seen
  {
    if Repeated(rows, job, rules, i) {
      var j :| 0 <= j < i && rows[j].job == job && IdentityOf(rows[j], rules) == IdentityOf(rows[i], rules);
      CountTwo(rows, job, rules, j, i);
      assert rows[i] in rows;
    }
  }

  // --------------------------------------------------------------- the method

  function CountJob(rows: seq<Row>, job: nat, n: nat): nat
    requires n <= |rows|
  {
    if n == 0 then 0 else CountJob(rows, job, n - 1) + (if rows[n - 1].job == job then 1 else 0)
  }

  /** The clean verdicts among the first `n` rows. */
  function CountClean(rows: seq<Row>, plan: Plan, job: nat, n: nat): nat
    requires n <= |rows| == |plan|
  {
    if n == 0 then 0
    else
      CountClean(rows, plan, job, n - 1)
      + (if rows[n - 1].job == job && plan[n - 1] == SetVerdict([]) then 1 else 0)
  }

  lemma {:induction false} CleanIsMine(rows: seq<Row>, plan: Plan, job: nat, n: nat)
    requires n <= |rows| == |plan| && forall i :: 0 <= i < |plan| ==> plan[i].SetVerdict?
    ensures CountClean(rows, plan, job, n) == CountMine(Done(rows, plan, job)[..n], job)
  {
    if n > 0 {
      CleanIsMine(rows, plan, job, n - 1);
      var all := Done(rows, plan, job);
      assert all[..n][..n - 1] == all[..n - 1];
    }
  }

  method CheckRequired(fields: seq<Field>, m: Fields) returns (errors: seq<ValidationError>)
    ensures errors == RequiredErrors(fields, m)
  {
    errors := [];
    for k := 0 to |fields|
      invariant errors + RequiredErrors(fields[k..], m) == RequiredErrors(fields, m)
    {
      assert fields[k..][1..] == fields[k + 1..];
      if fields[k].required && Blank(m, fields[k].key) {
        ConcatAssoc(errors, [Required(fields[k].key)], RequiredErrors(fields[k + 1..], m));
        errors := errors + [Required(fields[k].key)];
      } else {
        ConcatEmpty(RequiredErrors(fields[k + 1..], m));
      }
    }
  }

  method CheckEnums(fields: seq<Field>, m: Fields) returns (errors: seq<ValidationError>)
    ensures errors == EnumErrors(fields, m)
  {
    errors := [];
    for k := 0 to |fields|
      invariant errors + EnumErrors(fields[k..], m) == EnumErrors(fields, m)
    {
      var f := fields[k];
      assert fields[k..][1..] == fields[k + 1..];
      if OutsideEnum(f, m) {
        ConcatAssoc(errors, [NotInEnum(f.key, m[f.key])], EnumErrors(fields[k + 1..], m));
        errors := errors + [NotInEnum(f.key, m[f.key])];
      } else {
        ConcatEmpty(EnumErrors(fields[k + 1..], m));
      }
    }
  }

  method CheckReferences(keys: seq<string>, lookups: map<string, set<string>>, m: Fields)
    returns (errors: seq<ValidationError>)
    ensures errors == ReferenceErrors(keys, lookups, m)
  {
    errors := [];
    for k := 0 to |keys|
      invariant errors + ReferenceErrors(keys[k..], lookups, m) == ReferenceErrors(keys, lookups, m)
    {
      assert keys[k..][1..] == keys[k + 1..];
      if Dangling(keys[k], lookups, m) {
        ConcatAssoc(errors, [ReferenceNotFound(keys[k], m[keys[k]])], ReferenceErrors(keys[k + 1..], lookups, m));
        errors := errors + [ReferenceNotFound(keys[k], m[keys[k]])];
      } else {
        ConcatEmpty(ReferenceErrors(keys[k + 1..], lookups, m));
      }
    }
  }

  /** The seen-set after row `n`. */
  lemma SeenNext(rows: seq<Row>, job: nat, rules: Rules, n: nat, seen: set<string>)
    requires n < |rows| && SeenOk(rows, job, rules, n, seen)
    ensures SeenOk(rows, job, rules, n + 1,
      if rows[n].job == job && IdentityOf(rows[n], rules).Some?
         && IdentityOf(rows[n], rules).value in DuplicateIdentities(rows, job, rules)
      then seen + {IdentityOf(rows[n], rules).value} else seen)
  {
  }

  /** The identity checks: against the rows seen, and against the target. */
  method CheckIdentity(id: Option<string>, duplicates: set<string>, existing: set<string>, seen: set<string>)
    returns (errors: seq<ValidationError>, seen': set<string>)
    ensures errors == IdentityErrors(
      id.Some? && id.value in duplicates && id.value in seen, id.Some? && id.value in existing)
    ensures seen' == if id.Some? && id.value in duplicates then seen + {id.value} else seen
  {
    errors, seen' := [], seen;
    if id.Some? {
      if id.value in duplicates {
        if id.value in seen {
          errors := [DuplicateInFile];
        }
        seen' := seen + {id.value};
      }
      if id.value in existing {
        errors := errors + [AlreadyExists];
      }
    }
  }

  /** One turn of the cursor pass: the errors of row `n`, and the seen-set after it. */
  method CheckRow(rows: seq<Row>, job: nat, rules: Rules, n: nat,
                  duplicates: set<string>, existing: set<string>, seen: set<string>)
    returns (errors: seq<ValidationError>, seen': set<string>)
    requires n < |rows| && rows[n].job == job && SeenOk(rows, job, rules, n, seen)
    requires duplicates == DuplicateIdentities(rows, job, rules) && existing == Existing(rows, job, rules)
    ensures errors == ErrorsOf(rows[n], rules, Repeated(rows, job, rules, n), existing)
    ensures SeenOk(rows, job, rules, n + 1, seen')
  {
    var m := rows[n].mappedFields;
    SeenNext(rows, job, rules, n, seen);
    GroupedCheckIsNaive(rows, job, rules, n, seen);
    var required := CheckRequired(rules.fields, m);
    var enums := CheckEnums(rules.fields, m);
    var identity;
    identity, seen' := CheckIdentity(IdentityOf(rows[n], rules), duplicates, existing, seen);
    var references := CheckReferences(rules.referenceFields, rules.lookups, m);
    errors := required + enums + identity + references;
  }

  /** The update of one row. */
  method JudgeRow(rows: seq<Row>, job: nat, rules: Rules, n: nat, duplicates: set<string>,
                  existing: set<string>, seen: set<string>, ghost verdict: Change)
    returns (op: Op, seen': set<string>)
    requires Addressed(rows) && n < |rows| && rows[n].job == job && SeenOk(rows, job, rules, n, seen)
    requires duplicates == DuplicateIdentities(rows, job, rules) && existing == Existing(rows, job, rules)
    requires verdict == VerdictOn(rows, job, rules, n)
    ensures op == Op(n, verdict) && op.change.SetVerdict?
    ensures SeenOk(rows, job, rules, n + 1, seen')
  {
    var errors;
    errors, seen' := CheckRow(rows, job, rules, n, duplicates, existing, seen);
    op := Op(rows[n].id, SetVerdict(errors));
  }

  /** One turn of the cursor pass: counters, seen-set and buffer after row `n`. */
  method JudgeTurn(rows: seq<Row>, job: nat, rules: Rules, n: nat, ghost plan: Plan, duplicates: set<string>,
                   existing: set<string>, ghost flushed: nat,
                   valid: nat, invalid: nat, seen: set<string>, ops: seq<Op>)
    returns (valid': nat, invalid': nat, seen': set<string>, ops': seq<Op>)
    requires Addressed(rows) && flushed <= n < |rows| == |plan| && SeenOk(rows, job, rules, n, seen)
    requires duplicates == DuplicateIdentities(rows, job, rules) && existing == Existing(rows, job, rules)
    requires plan[n] == VerdictOn(rows, job, rules, n) && ops == OpsOf(rows, plan, job, flushed, n)
    ensures SeenOk(rows, job, rules, n + 1, seen') && ops' == OpsOf(rows, plan, job, flushed, n + 1)
    ensures valid' == valid + CountClean(rows, plan, job, n + 1) - CountClean(rows, plan, job, n)
    ensures valid' + invalid' == valid + invalid + CountJob(rows, job, n + 1) - CountJob(rows, job, n)
  {
    OpsSnoc(rows, plan, job, flushed, n + 1);
    valid', invalid', seen', ops' := valid, invalid, seen, ops;
    if rows[n].job == job {
      var op;
      op, seen' := JudgeRow(rows, job, rules, n, duplicates, existing, seen, plan[n]);
      if op.change.errors == [] {
        valid' := valid + 1;
      } else {
        invalid' := invalid + 1;
      }
      ops' := ops + [op];
    } else {
      SeenNext(rows, job, rules, n, seen);
    }
  }

  /** The cursor pass: verdicts are buffered and flushed at 500. */
  method JudgeRows(store: Store, job: nat, rules: Rules, ghost plan: Plan)
    returns (validCount: nat, invalidCount: nat, ghost writes: seq<Op>)
    requires store.Valid() && |plan| == |store.rows|
    requires forall n :: 0 <= n < |plan| ==> plan[n] == VerdictOn(store.rows, job, rules, n)
    modifies store
    ensures store.Valid() && store.rows == Done(old(store.rows), plan, job)
    ensures writes == OpsOf(old(store.rows), plan, job, 0, |plan|)
    ensures validCount == CountClean(old(store.rows), plan, job, |plan|)
    ensures validCount + invalidCount == CountJob(old(store.rows), job, |plan|)
  {
    var rows := store.rows;
    var duplicates := DuplicateIdentities(rows, job, rules);
    var existing := Existing(rows, job, rules);
    var seen: set<string> := {};
    var ops: seq<Op> := [];
    ghost var flushed := 0;
    validCount, invalidCount, writes := 0, 0, [];
    var n := 0;
    assert Halfway(rows, plan, job, 0) == rows;
    while n < |rows|
      invariant 0 <= flushed <= n <= |rows| && Addressed(rows)
      invariant store.Valid() && store.rows == Halfway(rows, plan, job, flushed)
      invariant ops == OpsOf(rows, plan, job, flushed, n)
      invariant writes == OpsOf(rows, plan, job, 0, flushed)
      invariant SeenOk(rows, job, rules, n, seen)
      invariant validCount == CountClean(rows, plan, job, n)
      invariant validCount + invalidCount == CountJob(rows, job, n)
    {
      validCount, invalidCount, seen, ops :=
        JudgeTurn(rows, job, rules, n, plan, duplicates, existing, flushed, validCount, invalidCount, seen, ops);
      n := n + 1;
      ops, flushed, writes := FlushIfFull(store, rows, plan, job, flushed, n, ops, writes);
    }
    Flush(store, rows, plan, job, flushed, n, ops);
    writes := writes + ops;
  }

  /** The whole pass: grouping, existing identities, then the rows. */
  method ValidateRows(store: Store, job: nat, rules: Rules)
    returns (validCount: nat, invalidCount: nat, ghost writes: seq<Op>)
    requires store.Valid()
    modifies store
    ensures writes == OpsOf(old(store.rows), Verdicts(old(store.rows), job, rules), job, 0, |old(store.rows)|)
    ensures store.Valid() && store.rows == ValidatedRows(old(store.rows), job, rules)
    ensures RowsJudged(old(store.rows), store.rows, job, rules)
    ensures validCount == CountMine(store.rows, job)
    ensures validCount + invalidCount == CountJob(old(store.rows), job, |store.rows|)
  {
    ghost var rows, plan := store.rows, Verdicts(store.rows, job, rules);
    validCount, invalidCount, writes := JudgeRows(store, job, rules, plan);
    CleanIsMine(rows, plan, job, |rows|);
    ValidatedRowsOutcome(rows, job, rules);
    assert store.rows[..|rows|] == store.rows;
  }

  // ------------------------------------------------ what it takes to be valid

  lemma {:induction false} NoneRequired(fields: seq<Field>, m: Fields)
    ensures RequiredErrors(fields, m) == [] <==> forall f :: f in fields && f.required ==> !Blank(m, f.key)
  {
    if fields != [] {
      NoneRequired(fields[1..], m);
      assert fields == [fields[0]] + fields[1..];
    }
  }

  lemma {:induction false} NoneOutside(fields: seq<Field>, m: Fields)
    ensures EnumErrors(fields, m) == [] <==> forall f :: f in fields ==> !OutsideEnum(f, m)
  {
    if fields != [] {
      NoneOutside(fields[1..], m);
      assert fields == [fields[0]] + fields[1..];
    }
  }

  lemma {:induction false} NoneDangling(keys: seq<string>, lookups: map<string, set<string>>, m: Fields)
    ensures ReferenceErrors(keys, lookups, m) == [] <==> forall k :: k in keys ==> !Dangling(k, lookups, m)
  {
    if keys != [] {
      NoneDangling(keys[1..], lookups, m);
      assert keys == [keys[0]] + keys[1..];
    }
  }

  /** A row comes out valid if and only if every required field is filled in, every
      enumerated value is one of the options, every reference resolves, and its
      identity, if it has one, is neither that of an earlier row of the import nor
      one the target has. Otherwise it comes out invalid. */
  lemma ValidIff(rows: seq<Row>, job: nat, rules: Rules, i: nat)
    requires i < |rows| && rows[i].job == job
    ensures var m, id := rows[i].mappedFields, IdentityOf(rows[i], rules);
      ValidatedRows(rows, job, rules)[i].validation.Valid? <==>
        && (forall f :: f in rules.fields && f.required ==> !Blank(m, f.key))
        && (forall f :: f in rules.fields ==> !OutsideEnum(f, m))
        && (forall k :: k in rules.referenceFields ==> !Dangling(k, rules.lookups, m))
        && (id.Some? ==>
              && id.value !in Existing(rows, job, rules)
              && forall j :: 0 <= j < i && rows[j].job == job ==> IdentityOf(rows[j], rules) != id)
    ensures !ValidatedRows(rows, job, rules)[i].validation.Unvalidated?
  {
    var m, id := rows[i].mappedFields, IdentityOf(rows[i], rules);
    var repeated, existing := Repeated(rows, job, rules, i), Existing(rows, job, rules);
    NoneRequired(rules.fields, m);
    NoneOutside(rules.fields, m);
    NoneDangling(rules.referenceFields, rules.lookups, m);
    var identity := IdentityErrors(repeated, id.Some? && id.value in existing);
    assert identity == [] <==> !repeated && !(id.Some? && id.value in existing);
    assert ErrorsOf(rows[i], rules, repeated, existing) == [] <==>
      && RequiredErrors(rules.fields, m) == [] && EnumErrors(rules.fields, m) == [] && identity == []
      && ReferenceErrors(rules.referenceFields, rules.lookups, m) == [];
  }

  // ----------------------------------------- the outcome, said of the rows

  /** A required field with this key is absent or empty. */
  ghost predicate LacksRequired(fields: seq<Field>, m: Fields, key: string) {
    (exists f :: f in fields && f.required && f.key == key) && (key !in m || m[key] == "")
  }

  /** A field with this key lists options, and the value is none of them. */
  ghost predicate BreaksEnum(fields: seq<Field>, m: Fields, key: string, value: string) {
    && key in m && m[key] == value && value != ""
    && exists f :: f in fields && f.key == key && |f.options| > 0 && value !in f.options
  }

  ghost predicate LacksReference(rules: Rules, m: Fields, key: string, value: string) {
    && key in rules.referenceFields && key in m && m[key] == value
    && (key in rules.lookups ==> value !in rules.lookups[key])
  }

  ghost predicate HasIdentity(r: Row, rules: Rules, value: string) {
    rules.identityField in r.mappedFields && r.mappedFields[rules.identityField] == value
  }

  ghost predicate Occurs(rows: seq<Row>, job: nat, rules: Rules, value: string) {
    exists j :: 0 <= j < |rows| && rows[j].job == job && HasIdentity(rows[j], rules, value)
  }

  ghost predicate AreIdentities(rows: seq<Row>, job: nat, rules: Rules, ids: set<string>) {
    forall v :: v in ids <==> Occurs(rows, job, rules, v)
  }

  /** The target, asked for all identities of the import, answers with this one. */
  ghost predicate TargetHas(rows: seq<Row>, job: nat, rules: Rules, value: string) {
    && rules.findExisting.Some?
    && exists ids :: AreIdentities(rows, job, rules, ids) && value in rules.findExisting.value(ids)
  }

  ghost predicate RepeatsEarlier(rows: seq<Row>, job: nat, rules: Rules, i: nat)
    requires i < |rows|
  {
    exists value :: HasIdentity(rows[i], rules, value) && Occurs(rows[..i], job, rules, value)
  }

  ghost predicate IsInTarget(rows: seq<Row>, job: nat, rules: Rules, i: nat)
    requires i < |rows|
  {
    exists value :: HasIdentity(rows[i], rules, value) && TargetHas(rows, job, rules, value)
  }

  function Rank(e: ValidationError): nat {
    match e
    case Required(_) => 0
    case NotInEnum(_, _) => 1
    case DuplicateInFile => 2
    case AlreadyExists => 3
    case ReferenceNotFound(_, _) => 4
  }

  /** By kind, and the two on the identity at most once. */
  ghost predicate ByKind(errors: seq<ValidationError>) {
    forall a, b :: 0 <= a < b < |errors| ==>
      var x, y := Rank(errors[a]), Rank(errors[b]);
      x < y || (x == y && x != 2 && x != 3)
  }

  /** Which errors row `i` gets. */
  ghost predicate ErrorsAre(rows: seq<Row>, job: nat, rules: Rules, i: nat, errors: seq<ValidationError>)
    requires i < |rows|
  {
    var m := rows[i].mappedFields;
    && (forall key :: Required(key) in errors <==> LacksRequired(rules.fields, m, key))
    && (forall key, value :: NotInEnum(key, value) in errors <==> BreaksEnum(rules.fields, m, key, value))
    && (DuplicateInFile in errors <==> RepeatsEarlier(rows, job, rules, i))
    && (AlreadyExists in errors <==> IsInTarget(rows, job, rules, i))
    && (forall key, value :: ReferenceNotFound(key, value) in errors <==> LacksReference(rules, m, key, value))
    && ByKind(errors)
  }

  /** Every row of the import has its errors and the status they give, and is otherwise
      as it was; no other row is touched. */
  ghost predicate RowsJudged(before: seq<Row>, after: seq<Row>, job: nat, rules: Rules) {
    && |after| == |before|
    && forall i: nat :: i < |before| ==>
         if before[i].job != job then after[i] == before[i]
         else
           && ErrorsAre(before, job, rules, i, after[i].errors)
           && after[i] == before[i].(
                errors := after[i].errors, validation := if |after[i].errors| == 0 then Valid else Invalid)
  }

  lemma {:induction false} RequiredIff(fields: seq<Field>, m: Fields)
    ensures forall e :: e in RequiredErrors(fields, m) ==> e.Required?
    ensures forall key :: Required(key) in RequiredErrors(fields, m) <==> LacksRequired(fields, m, key)
  {
    if fields != [] {
      RequiredIff(fields[1..], m);
      assert fields == [fields[0]] + fields[1..];
    }
  }

  lemma {:induction false} EnumIff(fields: seq<Field>, m: Fields)
    ensures forall e :: e in EnumErrors(fields, m) ==> e.NotInEnum?
    ensures forall key, value :: NotInEnum(key, value) in EnumErrors(fields, m) <==> BreaksEnum(fields, m, key, value)
  {
    if fields != [] {
      EnumIff(fields[1..], m);
      assert fields == [fields[0]] + fields[1..];
    }
  }

  lemma {:induction false} ReferenceIff(keys: seq<string>, lookups: map<string, set<string>>, m: Fields)
    ensures var errors := ReferenceErrors(keys, lookups, m);
      && (forall e :: e in errors ==> e.ReferenceNotFound?)
      && (forall key, value :: ReferenceNotFound(key, value) in errors <==>
            && key in keys && key in m && m[key] == value
            && (key in lookups ==> value !in lookups[key]))
  {
    if keys != [] {
      ReferenceIff(keys[1..], lookups, m);
      assert keys == [keys[0]] + keys[1..];
    }
  }

  lemma RepeatedIff(rows: seq<Row>, job: nat, rules: Rules, i: nat)
    requires i < |rows|
    ensures Repeated(rows, job, rules, i) <==> RepeatsEarlier(rows, job, rules, i)
  {
    if Repeated(rows, job, rules, i) {
      var j :| 0 <= j < i && rows[j].job == job && IdentityOf(rows[j], rules) == IdentityOf(rows[i], rules);
      var value := IdentityOf(rows[i], rules).value;
      assert HasIdentity(rows[i], rules, value);
      assert rows[..i][j] == rows[j];
    }
    if RepeatsEarlier(rows, job, rules, i) {
      var value :| HasIdentity(rows[i], rules, value) && Occurs(rows[..i], job, rules, value);
      var j :| 0 <= j < i && rows[..i][j].job == job && HasIdentity(rows[..i][j], rules, value);
      assert rows[j] == rows[..i][j];
    }
  }

  lemma IdentitiesOccur(rows: seq<Row>, job: nat, rules: Rules)
    ensures AreIdentities(rows, job, rules, Identities(rows, job, rules))
    ensures forall ids :: AreIdentities(rows, job, rules, ids) ==> ids == Identities(rows, job, rules)
  {
    forall v ensures v in Identities(rows, job, rules) <==> Occurs(rows, job, rules, v) {
      if Occurs(rows, job, rules, v) {
        var j :| 0 <= j < |rows| && rows[j].job == job && HasIdentity(rows[j], rules, v);
        assert rows[j] in rows;
      }
    }
  }

  lemma ExistingIff(rows: seq<Row>, job: nat, rules: Rules, i: nat)
    requires i < |rows|
    ensures var id := IdentityOf(rows[i], rules);
      id.Some? && id.value in Existing(rows, job, rules) <==> IsInTarget(rows, job, rules, i)
  {
    IdentitiesOccur(rows, job, rules);
    if IdentityOf(rows[i], rules).Some? {
      assert HasIdentity(rows[i], rules, IdentityOf(rows[i], rules).value);
    }
  }

  lemma ByKindAppend(a: seq<ValidationError>, b: seq<ValidationError>)
    requires ByKind(a) && ByKind(b)
    requires forall e, f :: e in a && f in b ==> Rank(e) < Rank(f)
    ensures ByKind(a + b)
  {
  }

  lemma OneKind(errors: seq<ValidationError>, rank: nat)
    requires rank != 2 && rank != 3 && forall e :: e in errors ==> Rank(e) == rank
    ensures ByKind(errors)
  {
    forall a, b | 0 <= a < b < |errors| ensures Rank(errors[a]) == rank && Rank(errors[b]) == rank {
      assert errors[a] in errors && errors[b] in errors;
    }
  }

  lemma IdentityKinds(repeated: bool, exists_: bool)
    ensures ByKind(IdentityErrors(repeated, exists_))
  {
    var errors := IdentityErrors(repeated, exists_);
    assert |errors| == 2 ==> errors[0].DuplicateInFile? && errors[1].AlreadyExists?;
  }

  lemma KindsInOrder(required: seq<ValidationError>, enums: seq<ValidationError>,
                     repeated: bool, exists_: bool, references: seq<ValidationError>)
    requires forall e :: e in required ==> e.Required?
    requires forall e :: e in enums ==> e.NotInEnum?
    requires forall e :: e in references ==> e.ReferenceNotFound?
    ensures ByKind(required + enums + IdentityErrors(repeated, exists_) + references)
  {
    OneKind(required, 0);
    OneKind(enums, 1);
    OneKind(references, 4);
    IdentityKinds(repeated, exists_);
    ByKindAppend(required, enums);
    ByKindAppend(required + enums, IdentityErrors(repeated, exists_));
    ByKindAppend(required + enums + IdentityErrors(repeated, exists_), references);
  }

  lemma VerdictIs(rows: seq<Row>, job: nat, rules: Rules, i: nat)
    requires i < |rows|
    ensures ErrorsAre(rows, job, rules, i,
      ErrorsOf(rows[i], rules, Repeated(rows, job, rules, i), Existing(rows, job, rules)))
  {
    var m, id := rows[i].mappedFields, IdentityOf(rows[i], rules);
    RequiredIff(rules.fields, m);
    EnumIff(rules.fields, m);
    ReferenceIff(rules.referenceFields, rules.lookups, m);
    RepeatedIff(rows, job, rules, i);
    ExistingIff(rows, job, rules, i);
    FromParts(rows, job, rules, i, RequiredErrors(rules.fields, m), EnumErrors(rules.fields, m),
      ReferenceErrors(rules.referenceFields, rules.lookups, m),
      Repeated(rows, job, rules, i), id.Some? && id.value in Existing(rows, job, rules));
  }

  lemma FromParts(rows: seq<Row>, job: nat, rules: Rules, i: nat, required: seq<ValidationError>,
                  enums: seq<ValidationError>, references: seq<ValidationError>, repeated: bool, exists_: bool)
    requires i < |rows|
    requires forall e :: e in required ==> e.Required?
    requires forall key :: Required(key) in required <==> LacksRequired(rules.fields, rows[i].mappedFields, key)
    requires forall e :: e in enums ==> e.NotInEnum?
    requires forall key, value :: NotInEnum(key, value) in enums <==>
      BreaksEnum(rules.fields, rows[i].mappedFields, key, value)
    requires forall e :: e in references ==> e.ReferenceNotFound?
    requires forall key, value :: ReferenceNotFound(key, value) in references <==>
      LacksReference(rules, rows[i].mappedFields, key, value)
    requires repeated <==> RepeatsEarlier(rows, job, rules, i)
    requires exists_ <==> IsInTarget(rows, job, rules, i)
    ensures ErrorsAre(rows, job, rules, i, required + enums + IdentityErrors(repeated, exists_) + references)
  {
    KindsInOrder(required, enums, repeated, exists_, references);
    var identity := IdentityErrors(repeated, exists_);
    assert DuplicateInFile in identity <==> repeated;
    assert AlreadyExists in identity <==> exists_;
    assert forall e :: e in identity ==> e.DuplicateInFile? || e.AlreadyExists?;
  }

  lemma ValidatedRowsOutcome(rows: seq<Row>, job: nat, rules: Rules)
    ensures RowsJudged(rows, ValidatedRows(rows, job, rules), job, rules)
  {
    forall i: nat | i < |rows| && rows[i].job == job
      ensures ErrorsAre(rows, job, rules, i, ValidatedRows(rows, job, rules)[i].errors)
    {
      VerdictIs(rows, job, rules, i);
    }
  }

  /** The step of the pipeline: only a mapped or validated job, and its counters. */
  method ValidateImportJob(store: Store, importJob: ImportJob, rules: Rules) returns (r: Result<(nat, nat), JobStatus>)
    requires store.Valid()
    modifies store, importJob`status, importJob`validRows
    ensures store.Valid()
    ensures !old(importJob.status).Mapped? && !old(importJob.status).Validated? ==>
      && r == Err(old(importJob.status)) && store.rows == old(store.rows)
      && importJob.status == old(importJob.status) && importJob.validRows == old(importJob.validRows)
    ensures old(importJob.status).Mapped? || old(importJob.status).Validated? ==>
      && r.Ok? && importJob.status.Validated?
      && store.rows == ValidatedRows(old(store.rows), importJob.id, rules)
      && RowsJudged(old(store.rows), store.rows, importJob.id, rules)
      && importJob.validRows == r.value.0 == CountMine(store.rows, importJob.id)
      && r.value.0 + r.value.1 == CountJob(old(store.rows), importJob.id, |store.rows|)
  {
    if importJob.status != Mapped && importJob.status != Validated {
      return Err(importJob.status);
    }
    var validCount, invalidCount;
    ghost var writes;
    validCount, invalidCount, writes := ValidateRows(store, importJob.id, rules);
    importJob.status := Validated;
    importJob.validRows := validCount;
    return Ok((validCount, invalidCount));
  }
}
