/** Validation and commit together: what validation leaves behind is what the
    commit protocol needs, so an import writes each good row exactly once. */
module ImportTheorem {
  import opened Wrappers
  import opened StagedRows
  import opened TargetSchema
  import opened Staging
  import opened ApplyMapping
  import opened Validation
  import opened CommitEngine
  import opened CommitProtocol
  import opened CommitSafety
  import opened CommitRecovery
  import opened CommitConvergence
  import opened ChunkLoops

  /** The identities present in the target. */
  ghost predicate Holds(target: multiset<Entity>, d: Descriptor, v: string) {
    exists e :: e in target && Identity(d, e.fields) == Some(v)
  }

  /** The descriptor asks for its identity field, has a unique index on it, and its
      query for existing identities tells the truth about the target. */
  ghost predicate Honest(init: multiset<Entity>, d: Descriptor, rules: Rules) {
    && rules.identityField == d.identityField && d.uniqueIndex
    && (exists f :: f in rules.fields && f.required && f.key == d.identityField)
    && rules.findExisting.Some?
    && forall vs: set<string>, v :: v in vs && Holds(init, d, v) ==> v in rules.findExisting.value(vs)
  }

  /** The identities of the good rows are there, differ, and are new to the target. */
  ghost predicate DistinctAndAbsent(base: seq<Row>, init: multiset<Entity>, cfg: Config) {
    && (forall i :: 0 <= i < |base| && Good(cfg, base[i]) ==> Identity(cfg.d, base[i].mappedFields).Some?)
    && (forall i, j :: 0 <= i < j < |base| && Good(cfg, base[i]) && Good(cfg, base[j])
          ==> Identity(cfg.d, base[i].mappedFields) != Identity(cfg.d, base[j].mappedFields))
    && (forall i, e :: 0 <= i < |base| && Good(cfg, base[i]) && e in init
          ==> Identity(cfg.d, e.fields) != Identity(cfg.d, base[i].mappedFields))
  }

  lemma ValidationMakesIdentitiesSound(rows: seq<Row>, init: multiset<Entity>, cfg: Config, rules: Rules)
    requires Honest(init, cfg.d, rules)
    ensures var base := ValidatedRows(rows, cfg.job, rules);
      DistinctAndAbsent(base, init, cfg) && RoomForAll(base, init, cfg) && StopsSecondWrite(base, cfg)
  {
    var base := ValidatedRows(rows, cfg.job, rules);
    forall i | 0 <= i < |base| && Mine(base[i], cfg.job)
      ensures IdentityOf(rows[i], rules).Some?
      ensures Identity(cfg.d, base[i].mappedFields) == IdentityOf(rows[i], rules)
      ensures forall j :: 0 <= j < i && Mine(base[j], cfg.job) ==>
        IdentityOf(rows[j], rules) != IdentityOf(rows[i], rules)
      ensures !Holds(init, cfg.d, IdentityOf(rows[i], rules).value)
    {
      ValidIff(rows, cfg.job, rules, i);
      assert rows[i] in rows;
      assert IdentityOf(rows[i], rules).value in Identities(rows, cfg.job, rules);
    }
  }

  /** A mapped import whose validation has passed is ready for the commit. */
  lemma ValidatedImportIsSound(rows: seq<Row>, init: multiset<Entity>, cfg: Config, rules: Rules)
    requires Addressed(rows) && UniqueRowIndex(rows, cfg.job)
    requires forall r :: r in rows && r.job == cfg.job ==> r.commit.Pending?
    requires Honest(init, cfg.d, rules)
    requires !cfg.txn ==> NoLookalike(ValidatedRows(rows, cfg.job, rules), cfg)
    ensures Sound(ValidatedRows(rows, cfg.job, rules), init, cfg)
  {
    ValidationMakesIdentitiesSound(rows, init, cfg, rules);
    var base := ValidatedRows(rows, cfg.job, rules);
    forall i | 0 <= i < |base| && Mine(base[i], cfg.job) ensures base[i].commit.Pending? {
      assert rows[i] in rows;
    }
  }

  /** Validate, then commit with any crashes and restarts, then one run to the end:
      the target is the initial one plus exactly one entity for each accepted valid
      row, and no row is left to commit. */
  lemma ImportsWriteExactlyOnce(rows: seq<Row>, init: multiset<Entity>, cfg: Config, rules: Rules, es: seq<Event>)
    requires Addressed(rows) && UniqueRowIndex(rows, cfg.job)
    requires forall r :: r in rows && r.job == cfg.job ==> r.commit.Pending?
    requires Honest(init, cfg.d, rules) && Sequential(es)
    requires !cfg.txn ==> NoLookalike(ValidatedRows(rows, cfg.job, rules), cfg)
    ensures var base := ValidatedRows(rows, cfg.job, rules);
      var s := Exec(Initial(base, init), cfg, es);
      var b := RunBatch(s.rows, s.target, cfg.d, cfg.txn, cfg.job, None);
      && b.target == init + EntitiesOf(base, cfg.d, AcceptedRows(base, cfg))
      && |b.rows| == |base|
      && forall i :: 0 <= i < |base| ==> !Eligible(b.rows[i], cfg.job)
  {
    ValidatedImportIsSound(rows, init, cfg, rules);
    CrashedRunsConverge(ValidatedRows(rows, cfg.job, rules), init, cfg, es);
  }

  /** Validate, then let any number of chunk loops run over each other and die: never
      more than one entity for an accepted row, and one for each when a loop ends. */
  lemma OverlappingLoopsWriteOnce(rows: seq<Row>, init: multiset<Entity>, cfg: Config, rules: Rules,
                                  es: seq<LoopEvent>)
    requires Fresh(rows, cfg.job) && Honest(init, cfg.d, rules)
    ensures var base := ValidatedRows(rows, cfg.job, rules);
      var x := LoopExec(NoLoops(base, init), cfg, es);
      && x.s.written <= AcceptedRows(base, cfg)
      && x.s.target == init + EntitiesOf(base, cfg.d, x.s.written)
      && ((exists l :: Ended(x, l)) ==> x.s.target == init + EntitiesOf(base, cfg.d, AcceptedRows(base, cfg)))
  {
    ValidationMakesIdentitiesSound(rows, init, cfg, rules);
    ChunkLoopsWriteOnce(ValidatedRows(rows, cfg.job, rules), init, cfg, es);
  }

  /** And the next full run after all that settles the import. */
  lemma OverlappedImportsConverge(rows: seq<Row>, init: multiset<Entity>, cfg: Config, rules: Rules,
                                  es: seq<LoopEvent>)
    requires Fresh(rows, cfg.job) && Honest(init, cfg.d, rules)
    ensures var base := ValidatedRows(rows, cfg.job, rules);
      var s := LoopExec(NoLoops(base, init), cfg, es).s;
      var b := RunBatch(s.rows, s.target, cfg.d, cfg.txn, cfg.job, None);
      && b.target == init + EntitiesOf(base, cfg.d, AcceptedRows(base, cfg))
      && |b.rows| == |base|
      && forall i :: 0 <= i < |base| && Mine(base[i], cfg.job) ==>
           b.rows[i].commit.Committed? || b.rows[i].commit.Failed?
  {
    ValidationMakesIdentitiesSound(rows, init, cfg, rules);
    LoopsConverge(ValidatedRows(rows, cfg.job, rules), init, cfg, es);
  }

  /** Rows of an import that is freshly staged, apart from what mapping and
      validation write. */
  ghost predicate Fresh(rows: seq<Row>, job: nat) {
    && Addressed(rows) && UniqueRowIndex(rows, job)
    && forall i :: 0 <= i < |rows| && rows[i].job == job ==> rows[i].commit.Pending?
  }

  lemma MappingKeepsFresh(rows: seq<Row>, job: nat, m: FieldMap, fields: seq<Field>, coerce: Coercion)
    requires Fresh(rows, job)
    ensures Fresh(MappedRows(rows, job, m, fields, coerce), job)
  {
  }

  /** The whole way: staged after any crashes and one retry, mapped, validated,
      committed through any crashes and one run to the end. The target gains exactly
      one entity for each valid row that it accepts. */
  lemma PipelineWritesExactlyOnce(docs: seq<Doc>, records: seq<RawRow>, cuts: seq<Cut>,
                                  m: FieldMap, fields: seq<Field>, coerce: Coercion, rules: Rules,
                                  init: multiset<Entity>, cfg: Config, es: seq<Event>)
    requires Indexed(docs) && Honest(init, cfg.d, rules) && Sequential(es)
    requires var staged := Opened(Restaged(docs, cfg.job, records));
      !cfg.txn ==> NoLookalike(ValidatedRows(MappedRows(staged, cfg.job, m, fields, coerce), cfg.job, rules), cfg)
    ensures var staged := Opened(Restaged(AfterCuts(docs, cfg.job, records, cuts), cfg.job, records));
      var base := ValidatedRows(MappedRows(staged, cfg.job, m, fields, coerce), cfg.job, rules);
      var s := Exec(Initial(base, init), cfg, es);
      var b := RunBatch(s.rows, s.target, cfg.d, cfg.txn, cfg.job, None);
      && b.target == init + EntitiesOf(base, cfg.d, AcceptedRows(base, cfg))
      && |b.rows| == |base|
      && forall i :: 0 <= i < |base| ==> !Eligible(b.rows[i], cfg.job)
  {
    RestageAfterCrashes(docs, cfg.job, records, cuts);
    var all := Restaged(docs, cfg.job, records);
    RestagedIndexed(docs, cfg.job, records);
    StagedRowsAreFresh(all, cfg.job, records);
    var staged := Opened(all);
    assert Fresh(staged, cfg.job) by {
      assert forall i :: 0 <= i < |staged| ==> staged[i] in staged;
    }
    MappingKeepsFresh(staged, cfg.job, m, fields, coerce);
    ImportsWriteExactlyOnce(MappedRows(staged, cfg.job, m, fields, coerce), init, cfg, rules, es);
  }

  lemma RestagedIndexed(docs: seq<Doc>, job: nat, records: seq<RawRow>)
    requires Indexed(docs)
    ensures Indexed(Restaged(docs, job, records))
  {
    OthersIndexed(docs, job);
    forall k | 0 <= k < |Others(docs, job)| ensures Others(docs, job)[k].job != job {
      assert Others(docs, job)[k] in Others(docs, job);
    }
  }
}
