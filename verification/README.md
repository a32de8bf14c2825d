# A verified model of the import pipeline

The repository is a streaming import pipeline: a file is parsed under a row ceiling,
its records are staged, columns are mapped to the fields of a target, rows are
validated, and the good rows are committed one by one to a business model through a
target descriptor. Several imports can form a session, run in dependency order. This
project models the parts of it that carry the hard promises and proves those promises
for all inputs, all runs and all crash histories. `dafny verify dfyconfig.toml` checks
everything.

## How the model is laid out

One staged-row type (`StagedRows`) runs through all parts.

**Commit.** `JobStore` is the concrete store under the commit loop, `CommitEngine` the
loop itself over that store and a target collection, and `CommitWorker` the queue
worker's chunk loop and the entry point, over the job document of `ImportJobs`.
`CommitBatches` collects what a run does to rows and target, and `CommitOutcome` says
how each row ends, in terms of its fields and the refusal alone. `CommitProtocol` takes the
loop apart into atomic steps (reserve, write, close), with any number of workers and a
crash possible between any two steps; a transaction is one step. `CommitSafety` proves
what holds under every interleaving, `CommitOverlap` exactly when overlapping runs write
each row once, `CommitQuiet` that runs which all end leave nothing to do, and `ChunkLoops`
carries this to queue workers that overlap on one import. `CommitRecovery` proves the
exact state of every row when processes run one after the other, `CommitConvergence` that
the steps refine the loop and that crashed runs converge, `CommitTransactions` what the
transactional mode keeps for any import at all. `CommitMarker` and `CommitNecessity` show
exactly which assumptions the two promises of the loop need, with the histories of
`CommitReach`, `CommitResume` what a resumed run reports, and `CommitExamples` has imports
of one or two rows at which promises fail. `ImportTheorem` composes staging, mapping,
validation and commit.

What the engine sees of a target is a `Descriptor`: `reject` is the fixed predicate that
says which rows its `commitRow` refuses and with what error, `refOf` names the entity
written for a row, `uniqueIndex` says whether there is a unique index on the identity.

**SQL dumps.** `SqlDump` says what a text means by consuming it from its start;
`SqlParser` and `SqlScan` hold the index loops of the source and are proved to read
exactly that. `SqlPrinter` prints dumps with every freedom the two common tools use:
quoting and casing, white space, text between statements, and for each character of a
string the choice between a doubled quote (section 5.3 of ISO/IEC 9075-2) and MySQL's
backslash escapes. `SqlRoundTrip` and `SqlTheorem` read it back, and `SqlMeaning` says
of the small readers (the INSERT pattern, identifiers, bare values) what they accept.

**Ordering.** `DependencyGraph` has cycles, the pigeonhole argument that a stuck
remainder contains one, and the invariant of Kahn's queue. `TopologicalSort` runs the
algorithm twice as the source does, `SessionOrder` lifts the result to jobs.

**Mapping and validation.** `Levenshtein` relates the table that skips the minimum on
equal characters to the least number of edits. `SuggestMapping` is the greedy matcher on
top, `ApplyMapping` the split of each row, `Validation` the grouped duplicate check, and
`BulkUpdates` the buffered writes both of them share.

**Bounded collection and staging.** `BoundedParsing` has the collector with its event
handlers and the two guardrail decisions, `Staging` clear-then-restage with its crashes.

`Sequences`, `Bags`, `Text`, `Limits`, `TargetSchema` and `Wrappers` are helpers.

## What came out differently from what one might expect

- *Committed without an entity.* Without a transaction the engine takes any duplicate-key
  error on a row that was reserved when read as that row's own earlier write. One crash
  between reserving and writing makes that wrong in three ways: the target refuses the
  row with such an error for another reason (a second unique index, or a message that
  contains `E11000`), it already has the identity of the row, or it has taken another row
  of the import with the same identity (`LookalikeIsLost`, `PresentIsLost`,
  `ClashIsLost`, each with an example). The next run then marks the row committed, though
  nothing of it was written. `CommittedMeansWrittenIff` gives the exact condition for the
  marker, `SettlesIffSound` the one under which every crash history ends well, both in
  both modes. Validation supplies all of it but the unique index and the absence of such
  refusals, when the identity field is required and the target's query for existing
  identities is there and honest (`ValidatedImportIsSound`).
- *An empty table name.* The name pass accepts a dump whose table is called ` `` `; the row
  pass then has no row list and stops with a type error, exactly when that table has rows
  (`PassesAgree`, `EmptyTableNameBreaks`). Apart from this the two passes agree.
- *Failed is not final under concurrency.* Two workers can run one import, as a queue may
  deliver a job twice (`queueing/adapters/bullmqAdapter.js:34-38`). A stale reader then
  overwrites `committed` with `failed` (`StaleReaderFails`). That a failed row has written
  nothing holds under all overlaps exactly for imports in which no row the target takes
  brings a new identity to a unique index (`FailedMeansUnwrittenIff`). What does hold,
  where such an index guards the import, is that a failed row which the target takes has
  its entity there (`InterleavedRunsAreSafe`), and that the next full run settles
  everything (`AnyHistoryConverges`). The comment in the adapter says that only `pending`
  rows are ever pulled; the code also pulls `committing` rows, and the model follows the
  code.
- *Transactions do not help against overlap.* One process at a time needs no unique index
  when write and status flip are one transaction (`TransactionsNeverReserve`). Two
  overlapping ones write a row twice without an index, in a transaction or not, since
  nothing looks at the row's status again (`OverlapWritesTwice`). `OverlapsWriteOnceIff`
  gives the exact condition in both modes.
- *Completed after a resume.* A resumed worker counts from zero. A worker that dies after
  its last row leaves an import whose next run ends as completed with errors, the rows
  done before being counted as skipped (`ResumeReportsErrors`, with a one-row case in
  `ResumeExample`). `TotalsAccount` gives the exact condition for `completed`.
- *Names that every object has.* A map entry for a column such as `toString` finds an
  inherited value in every row (`MappedFieldsAreTheCoerced`), and a dump column called
  `__proto__` gets no key (`RowIsByColumn`); `InheritedExample` and `PrototypeExample` are
  such inputs.
- *Jobs without declared dependencies.* The comment at `orchestration/dependencyGraph.js:141-142`
  says that they are ordered last. The code orders jobs that wait for nothing in the
  session ahead of all that do (`ComputeSessionExecutionOrder`), and the loop that would
  append them at the end adds nothing (`AllPlaced`). `NoDeclarationExample` is a session
  whose undeclared job never comes last.

## Model

| member | source | states |
|---|---|---|
| `StagedRows.SnapshotSpec` | orchestration/adapters/inMemoryJobStore.js:193-225 | without a limit the cursor yields exactly the eligible rows, each once, in strictly increasing row index |
| `StagedRows.SortedUnique` | orchestration/adapters/inMemoryJobStore.js:215-223 | a list sorted by row index is determined by its elements, so any sort gives the same cursor |
| `JobStore.Store.CursorStaged` | orchestration/adapters/inMemoryJobStore.js:193-236 | the cursor holds a snapshot: filter, sort and limit applied once to the rows as they are |
| `JobStore.Cursor.Next` | orchestration/adapters/inMemoryJobStore.js:227-235 | yields the records of the snapshot in order, then stays at its end |
| `JobStore.Store.UpdateOneStaged` | orchestration/adapters/inMemoryJobStore.js:238-251 | the visit of all records changes exactly the row with that id, in exactly the fields set |
| `CommitEngine.CommitRecord` | core/commit/commitBatch.js:86-156 | one turn of the loop, both branches: the target after the write and the row's final status, with a duplicate key on a row read as reserved counted as committed |
| `CommitEngine.CommitBatch` | core/commit/commitBatch.js:58-159 | rows, target and counters after a run are those of treating the snapshot record by record, and processed = committed + failed |
| `CommitOutcome.RefusedRowEnds` | core/commit/commitBatch.js:133-155 | for any rows and target, in both modes: an eligible row refused with error e ends failed with e's message, unless there is no transaction, the row was reserved before the run, and e has code 11000 or 11001 or somewhere in its message the text E11000; then it ends committed |
| `CommitOutcome.AcceptedRowEnds` | core/commit/commitBatch.js:87-143 | an eligible row that is not refused ends committed with its entity in the target, or else a unique index holds an entity with its identity and the row ends committed if it was reserved before a run without transactions and failed otherwise; which of the two is decided when there is no index, no identity, or the identity is there at the start |
| `CommitOutcome.OtherRowsKeep` | core/commit/commitBatch.js:79-84 | rows of other imports, rows not valid and rows with a final status are left exactly as they are |
| `CommitOutcome.NothingElseWritten` | core/commit/commitBatch.js:125-126 | whatever a run adds to the target has the name and the mapped fields of an eligible row that is not refused |
| `CommitOutcome.RunCounts` | core/commit/commitBatch.js:66-158 | the two counters are the numbers of records of the run that end committed and that end failed |
| `CommitOutcome.LimitTakesFirst` | orchestration/adapters/inMemoryJobStore.js:193-225 | a limit above zero takes the first eligible rows by row index, as many as it says; zero and a missing limit take all |
| `CommitProtocol.TakenIsWritten` | core/commit/commitBatch.js:134-140 | the unique index stops a row the target would take exactly when that row's own entity has been written |
| `CommitProtocol.WriteOutcome` | core/commit/commitBatch.js:125-126 | in every reachable state the write of a row has the outcome that its own history and the reject predicate decide |
| `CommitSafety.InterleavedRunsAreSafe` | core/commit/commitBatch.js:86-156 | under any interleaving of any number of runs, limited or not, with crashes, in both modes, given a unique index and good rows new to it: a committed row has its entity (unless its refusal was mistaken for a duplicate key), a failed row that the target takes has its entity too, no row has two, and once a run that took in every eligible row has finished each accepted row has exactly one |
| `CommitSafety.NextOk` | core/commit/commitBatch.js:86-156 | every event of any worker, in a transaction or not, keeps the concurrent invariant |
| `CommitOverlap.StaleReaderFails` | core/commit/commitBatch.js:144-150 | for every identity that is new to a target with a unique index on it, the first good row that brings it is committed and then marked failed by two overlapping runs, its entity being in the target |
| `CommitOverlap.FailedMeansUnwrittenIff` | core/commit/commitBatch.js:144-150 | for any staged import, in both modes: under all overlaps a failed row has written nothing if and only if no good row brings a new identity to a target with a unique index on it |
| `CommitOverlap.OverlapWritesTwice` | core/commit/commitBatch.js:87-100 | without an index to stop it a good row is written by both of two overlapping runs, in a transaction or not |
| `CommitOverlap.OverlapsWriteOnceIff` | core/commit/commitBatch.js:86-156 | in both modes, all overlaps and crashes write each good row once if and only if a unique index stops the second write of every good row (so that each has an identity) and has room for all of them |
| `CommitOverlap.AnyHistoryConverges` | core/commit/commitBatch.js:86-156 | where a unique index has room for every good row and stops its second write: after any history at all, overlaps and crashes included, in both modes, the next full run leaves one entity for each accepted row and every valid row committed or failed |
| `CommitQuiet.AllFinishedLeavesNone` | core/commit/commitBatch.js:86-156 | if all runs started have come to their end and one of them took in every eligible row, every valid row has a final status |
| `ChunkLoops.LoopsAreSchedules` | worker/bullmqCommitWorker.js:56-70 | whatever chunk loops do together is a schedule of the protocol |
| `ChunkLoops.ChunkLoopsWriteOnce` | worker/bullmqCommitWorker.js:56-70 | any number of chunk loops of 200, begun, interleaved and killed at any time: never two entities for a row, exactly one for each accepted row as soon as one loop has ended, and no eligible row when all have |
| `CommitRecovery.ExecState` | core/commit/commitBatch.js:86-156 | after every crash history, in both modes, the exact content and status of every row is one of a fixed list of cases tied to whether its entity was written |
| `CommitRecovery.NextState` | core/commit/commitBatch.js:86-156 | every step, crash and restart keeps that |
| `CommitConvergence.StepsRefineRun` | core/commit/commitBatch.js:86-156 | a worker left alone reaches, in finitely many atomic steps, exactly the rows, target and counters of the uninterrupted loop |
| `CommitConvergence.CrashedRunsConverge` | core/commit/commitBatch.js:86-156 | one process at a time: after any number of runs cut at any step, one full run leaves no eligible row and the initial target plus one entity for each accepted row, in both modes; in a transaction neither a unique index nor an identity is needed for this |
| `CommitConvergence.SameAsCrashFree` | core/commit/commitBatch.js:134-139 | rows and target then equal the crash-free result, except that a row recognised as its own earlier write may lack its entity's name |
| `CommitConvergence.OnlyCommittingIsAmbiguous` | core/commit/commitBatch.js:117-155 | at every moment pending and failed rows have written nothing, committed rows have their entity, and a duplicate key in hand is on a row read as reserved whose entity is in the target |
| `CommitTransactions.TransactionsNeverReserve` | core/commit/commitBatch.js:87-115 | in a transaction and one process at a time, for any staged import, with or without a unique index and whatever the identities: no row is ever seen reserved, and at every moment the target is the initial one plus one entity for each row marked committed |
| `CommitMarker.LookalikeIsLost` | core/commit/commitBatch.js:133-140 | for every row refused with a duplicate-key-like error there is a history with one crash that marks it committed with nothing written |
| `CommitMarker.PresentIsLost` | core/commit/commitBatch.js:133-140 | a good row whose identity the target already has is marked committed after one crash, and its entity never gets there |
| `CommitMarker.ClashIsLost` | core/commit/commitBatch.js:133-140 | of two good rows with one identity, one is marked committed without its entity after one crash |
| `CommitMarker.CommittedMeansWrittenIff` | core/commit/commitBatch.js:86-156 | committed means written, after all crash histories and also under all overlaps, if and only if each write is one transaction with its status flip, or no refusal looks like a duplicate key and a unique index, where there is one, has room for every good row |
| `CommitExamples.LookalikeExample` | core/commit/idempotency.js:17-18 | a one-row import whose refusal looks like a duplicate key, committed with nothing written |
| `CommitExamples.PresentExample` | core/commit/commitBatch.js:133-140 | one row whose identity the target has, nothing refused, and one crash: somebody else's entity passes for its own |
| `CommitExamples.ClashExample` | core/commit/commitBatch.js:133-140 | two rows with one identity, and one crash |
| `CommitExamples.StaleExample` | core/commit/commitBatch.js:144-150 | one row, marked failed by the second of two overlapping runs with its entity in the target, in both modes |
| `CommitExamples.TwiceExample` | core/commit/commitBatch.js:87-100 | one row, no unique index: two overlapping runs write it twice, in a transaction or not |
| `CommitNecessity.SettlesIffSound` | core/commit/commitBatch.js:86-156 | one process at a time, in both modes: after every crash history the next full run settles the import if and only if a unique index, where there is one, has room for every good row, and either each write is one transaction with its status flip, or no refusal looks like a duplicate key and the index stops the second write of every good row |
| `CommitNecessity.UnstoppedUnsettles` | core/commit/commitBatch.js:117-132 | without a transaction, a good row that the index cannot stop is written twice after a crash between its write and its status update |
| `CommitNecessity.ClashUnsettles` | core/commit/commitBatch.js:133-155 | in both modes, two good rows with one identity are enough for the run to fail one of them |
| `CommitNecessity.PresentUnsettles` | core/commit/commitBatch.js:133-155 | in both modes, a good row whose identity is in the target already fails |
| `CommitWorker.SnapshotRest` | core/commit/commitBatch.js:79-84 | after a batch over the first n records the next query yields exactly the others, in order |
| `CommitWorker.OneChunk` | worker/bullmqCommitWorker.js:56-70 | one chunk leaves the result of what is still to come unchanged and shortens it by the rows processed |
| `CommitWorker.ProcessChunk` | worker/bullmqCommitWorker.js:57-62 | the same of the running store, and a short chunk means that no row is left |
| `CommitWorker.ProcessJob` | worker/bullmqCommitWorker.js:39-94 | the chunk loop terminates, stops with no eligible row, and gives rows, target and totals of one unlimited batch; skipped are the valid rows in neither total, and the job is completed if nothing failed and nothing was skipped, else completed with errors |
| `CommitWorker.TotalsAccount` | worker/bullmqCommitWorker.js:53-73 | committed + failed + skipped = valid rows in every run, first or resumed, and the status is completed if and only if every valid row was still to do before the run and is committed after it |
| `CommitResume.ResumeReportsErrors` | worker/bullmqCommitWorker.js:53-73 | for every import with a valid row there is a crash after which the next run does nothing, fails nothing, and reports errors with all good rows committed |
| `CommitExamples.ResumeExample` | worker/bullmqCommitWorker.js:72-73 | a one-row import, all of it committed, that ends as completed with errors |
| `CommitWorker.CommitImportJob` | core/commit/commitBatch.js:162-199 | only a validated job is accepted; above the threshold it is queued with rows untouched, else committed with counters and final status |
| `BulkUpdates.BulkWriteStaged` | orchestration/adapters/inMemoryJobStore.js:112-131 | a bulk write is its operations one after the other |
| `BulkUpdates.FlushIsHalfway` | core/validation/validateRows.js:143-155 | sending the operations between two flushes takes the rows from one intermediate state to the next |
| `BulkUpdates.OneWriteEach` | core/validation/validateRows.js:143-155 | wherever the flushes fall, every row of the import gets exactly one write, in cursor order |
| `BulkUpdates.FlushIfFull` | core/mapping/applyMapping.js:197-200 | after the turn the rows written are those up to the last flush and the buffer holds the others, fewer than 500 |
| `Validation.GroupedCheckIsNaive` | core/validation/validateRows.js:41-46 | the grouped check with a seen-set flags a row exactly when an earlier row of the import has the same identity |
| `Validation.CheckRow` | core/validation/validateRows.js:97-138 | the errors of a row are the required, enum, identity and reference errors, in that order, with the duplicate check done the naive way |
| `Validation.JudgeRows` | core/validation/validateRows.js:90-155 | the buffered pass writes each row its verdict once and counts every row as valid or invalid |
| `Validation.ValidateRows` | core/validation/validateRows.js:38-155 | every row of the import gets exactly the errors its fields call for: `required` for each required field that is absent or empty, `not in enum` for each non-empty value outside the options, `duplicate` if an earlier row of the import has its identity, `exists` if the target answers with it, `not found` for each reference that is set and not in the lookup, in this order; it is valid if there is none and otherwise invalid, its other fields and all other rows are unchanged; valid count = rows now valid, valid + invalid = rows of the import |
| `Validation.ValidIff` | core/validation/validateRows.js:97-141 | a row comes out valid if and only if all required fields are filled in, enumerated values are options, references resolve, and its identity is neither that of an earlier row nor one the target has |
| `Validation.ValidatedRowsOutcome` | core/validation/validateRows.js:97-150 | the same of the rows as a function, said of fields, options, lookups and earlier rows only |
| `Validation.ValidateImportJob` | core/validation/validateRows.js:24-165 | only a mapped or validated job is accepted, and its valid-row counter counts the rows now valid |
| `ImportTheorem.ValidationMakesIdentitiesSound` | core/validation/validateRows.js:116-127 | with the identity field required, a unique index and an honest query, the valid rows have distinct identities new to the target, and the index has room for all and stops their second write |
| `ImportTheorem.ValidatedImportIsSound` | core/validation/validateRows.js:41-57 | what validation leaves is what the commit protocol needs |
| `ImportTheorem.ImportsWriteExactlyOnce` | core/commit/commitBatch.js:79-156 | validate, then commit through any crashes: exactly one entity for each accepted valid row and nothing left to commit |
| `ImportTheorem.OverlappingLoopsWriteOnce` | worker/bullmqCommitWorker.js:56-70 | validate, then overlapping chunk loops with crashes: exactly one entity for each accepted valid row once a loop has ended |
| `ImportTheorem.OverlappedImportsConverge` | worker/bullmqCommitWorker.js:56-70 | validate, then overlapping chunk loops with crashes, then one full run: exactly one entity for each accepted valid row, and every valid row has a final status |
| `ImportTheorem.PipelineWritesExactlyOnce` | worker/importPipeline.js:176-183 | staged by a retry after any crashed attempts, mapped, validated and committed through any crashes: exactly one entity for each accepted valid row and nothing left to commit |
| `DependencyGraph.OrderedIsAcyclic` | orchestration/dependencyGraph.js:55 | a graph whose edges all end in an ordered list has no cycle |
| `DependencyGraph.StuckHasCycle` | orchestration/dependencyGraph.js:15-16 | a non-empty set in which every vertex waits for another one contains a cycle |
| `DependencyGraph.KahnDecides` | orchestration/dependencyGraph.js:48 | when the queue runs dry, all vertices were visited if and only if there is no cycle |
| `TopologicalSort.Indegrees` | orchestration/dependencyGraph.js:23-30 | the map holds every vertex with the number of edges into it |
| `TopologicalSort.Release` | orchestration/dependencyGraph.js:107-115 | taking a vertex keeps the queue's invariant |
| `TopologicalSort.IsAcyclic` | orchestration/dependencyGraph.js:21-49 | true exactly for graphs without a cycle |
| `TopologicalSort.BuildGraph` | orchestration/dependencyGraph.js:66-74 | an edge for each declared dependency and no other, a vertex for each entity and each dependency mentioned |
| `TopologicalSort.Sort` | orchestration/dependencyGraph.js:62-131 | returns if and only if there is no cycle, and then lists everything mentioned exactly once, dependencies first, and what waits for nothing ahead of all that waits; the second incompleteness check cannot fire |
| `SessionOrder.LocalDependencies` | orchestration/dependencyGraph.js:146-152 | keeps exactly the declared dependencies with both ends in the session |
| `SessionOrder.GroupedIsSessionOrder` | orchestration/dependencyGraph.js:166-180 | grouping the jobs along an ordered list of entities is a permutation of them, puts dependencies before dependers and jobs that wait for nothing before those that do, and keeps the input order within an entity |
| `SessionOrder.AllPlaced` | orchestration/dependencyGraph.js:182-189 | every job is placed before the fallback loop, which adds nothing |
| `SessionOrder.PlaceGroups` | orchestration/dependencyGraph.js:166-180 | the loops place the ids of the grouped jobs with their entity keys alongside |
| `SessionOrder.PlaceRest` | orchestration/dependencyGraph.js:182-189 | the fallback loop leaves both lists as they are |
| `SessionOrder.ComputeSessionExecutionOrder` | orchestration/dependencyGraph.js:144-192 | fails exactly on a cycle among the entities present, and then names these; else ids and keys are those of one ordered permutation of the jobs |
| `SessionOrder.NoDeclarationExample` | orchestration/dependencyGraph.js:141-142 | a session in which the job without declared dependencies is never ordered last |
| `Levenshtein.TableIsLeast` | core/mapping/applyMapping.js:27-31 | the recurrence without a minimum on equal characters gives the least number of insertions, deletions and substitutions |
| `Levenshtein.TableIsMetric` | core/mapping/applyMapping.js:20-33 | the distance is zero only between equal strings, symmetric, and obeys the triangle inequality |
| `Levenshtein.FillRow` | core/mapping/applyMapping.js:27-31 | one row of the matrix from the row above, every other entry untouched |
| `Levenshtein.Distance` | core/mapping/applyMapping.js:20-33 | the filled matrix ends with the recurrence's value |
| `SuggestMapping.SuggestOne` | core/mapping/applyMapping.js:68-103 | the tiers in order: first exact, else first containing, else the first of the nearest unclaimed fields within two edits, else nothing, and nothing only if none qualifies |
| `SuggestMapping.FindNearest` | core/mapping/applyMapping.js:88-96 | the first unclaimed candidate with a form at the least distance |
| `SuggestMapping.Suggest` | core/mapping/applyMapping.js:59-104 | one suggestion for each column in source order, decided over the fields whose key no earlier column claimed: the first of them whose key, title or an alias has the column's non-empty normal form, exact; if there is none, the first with such a form of more than two characters inside the column's or around it, fuzzy; if there is none and the column's form is longer than three, the first of the nearest within two edits, fuzzy; else nothing |
| `SuggestMapping.SuggestionIsForFields` | core/mapping/applyMapping.js:60-103 | what the tiers answer over prepared candidates is that decision over keys, titles and aliases |
| `SuggestMapping.TargetsAreDistinct` | core/mapping/applyMapping.js:64-66 | two columns never get the same field |
| `SuggestMapping.NormalizeOne` | core/mapping/applyMapping.js:18 | by code point: lower-case letters and digits are kept, upper-case letters lowered, all else dropped but for the two characters that lower to an ASCII letter |
| `SuggestMapping.NormalizeIsNormal` | core/mapping/applyMapping.js:18 | normal forms hold only lower-case letters and digits, and normalising is idempotent |
| `SuggestMapping.NormalizeDrops` | core/mapping/applyMapping.js:18 | a character outside letters and digits may be left out anywhere |
| `SuggestMapping.NormalizeIgnores` | core/mapping/applyMapping.js:18 | casing and the choice of separators never tell two names apart |
| `ApplyMapping.CustomFieldsAreTheRest` | core/mapping/applyMapping.js:175-187 | custom fields are exactly the raw columns outside the map |
| `ApplyMapping.MappedFieldsAreTheCoerced` | core/mapping/applyMapping.js:177-185 | a key is mapped exactly when an entry names it, its column is found in the row, as a cell or as a name the object inherits, and the coercion gave a value, which is the value mapped |
| `ApplyMapping.InheritedExample` | core/mapping/applyMapping.js:178 | a map entry for `toString` fills its field in a row that has no column at all |
| `ApplyMapping.RemappingForgetsTheFirst` | core/mapping/applyMapping.js:173-202 | raw rows never change, and applying one map then another equals applying the other alone |
| `ApplyMapping.KindOfIsLast` | core/mapping/applyMapping.js:148 | a key declared twice has the type of its last declaration |
| `ApplyMapping.CheckTargets` | core/mapping/applyMapping.js:150-163 | accepts exactly maps with known and distinct targets, else names the unknown or the repeated keys |
| `ApplyMapping.MapRows` | core/mapping/applyMapping.js:169-202 | the buffered pass writes each row its split exactly once |
| `ApplyMapping.Apply` | core/mapping/applyMapping.js:134-202 | which error for which input, in the source's order, with nothing written; else the job is mapped, and in every row of the import the custom fields are exactly the raw cells of the columns outside the map, the key of an entry whose column is in the raw row is mapped if and only if coercing that cell to the type of the last field with the key gives a value, and then to it, no other key is mapped but for inherited names, and all other fields and rows are unchanged |
| `ApplyMapping.MappedRowsOutcome` | core/mapping/applyMapping.js:173-196 | the same of the rows as a function |
| `ApplyMapping.SuggestionsPass` | core/mapping/applyMapping.js:150-163 | the field map made of the suggestions for distinct columns passes both checks, and it has every suggestion |
| `SqlParser.ReadSqlString` | core/parsing/sqlDumpParser.js:75-105 | reads exactly the string the text says, with both escape conventions, and advances |
| `SqlParser.ParseTuple` | core/parsing/sqlDumpParser.js:120-149 | reads exactly the tuple the text says or raises its error, and advances |
| `SqlParser.FindInsert` | core/parsing/sqlDumpParser.js:32 | the first match of the INSERT pattern at or behind the cursor, with its captures and its end |
| `SqlMeaning.PatternMatches` | core/parsing/sqlDumpParser.js:32 | any text with the pattern's pieces in place is matched, with the captures and the end they show |
| `SqlMeaning.MatchesHavePattern` | core/parsing/sqlDumpParser.js:32 | any match has the pattern: the three keywords in any casing, white space between them, a table name without white space or parenthesis, an optional list |
| `SqlMeaning.FirstMatch` | core/parsing/sqlDumpParser.js:167-169 | the search returns the first place at which the pattern matches, and nothing only if there is none |
| `SqlMeaning.QuotedIdentifier` | core/parsing/sqlDumpParser.js:38-57 | an identifier in any of the four kinds of marks is itself, with the mark doubled inside |
| `SqlMeaning.LoneMark` | core/parsing/sqlDumpParser.js:46-52 | a quote character on its own is stripped to the empty name |
| `SqlMeaning.LastDotSplits` | core/parsing/sqlDumpParser.js:43-44 | of a qualified name only the part behind the last dot counts |
| `SqlMeaning.ColumnsByComma` | core/parsing/sqlDumpParser.js:59-64 | a column list is its pieces between commas, unquoted, blank ones dropped |
| `SqlMeaning.BareValue` | core/parsing/sqlDumpParser.js:108-114 | a bare value is the empty string, null in any casing, a signed decimal or text, whatever white space stands around it |
| `SqlMeaning.EscapeTable` | core/parsing/sqlDumpParser.js:83-91 | each escape by its code point, and any other escaped character as itself |
| `SqlScan.ScanTuples` | core/parsing/sqlDumpParser.js:179-198 | walks over all tuples of a statement whatever is asked for; only rows pushed and the early return depend on it |
| `SqlScan.ScanSqlDump` | core/parsing/sqlDumpParser.js:159-207 | terminates on every text with the answer that the dump as a whole determines, read independently of table and limit |
| `SqlScan.ListSqlTables` | core/parsing/sqlDumpParser.js:210-212 | the distinct table names in order, or the malformed-dump error |
| `SqlScan.ExtractSqlTable` | core/parsing/sqlDumpParser.js:223-269 | every answer, said of the statements of the dump: malformed, no INSERTs, several tables and none asked for (listing exactly the tables, in order of appearance), the table asked for not among them, no column names on the table's last statement with the limit not passed, or the rows of the one table, or that they pass the limit |
| `SqlScan.ExtractionIsOk` | core/parsing/sqlDumpParser.js:223-269 | the same of the extraction as a function of the dump |
| `SqlScan.PassesAgree` | core/parsing/sqlDumpParser.js:223-257 | after a good name pass the row pass never finds a malformed dump and gives the same names up to an early return; it fails exactly for the empty table name with rows |
| `SqlScan.ResolvedTableIsThere` | core/parsing/sqlDumpParser.js:236-255 | a resolved table always has a statement in the dump |
| `SqlRoundTrip.ReadPrintedDump` | core/parsing/sqlDumpParser.js:159-207 | a printed dump is read back statement by statement, whatever its strings contain, INSERT statements included |
| `SqlRoundTrip.FindAfterGap` | core/parsing/sqlDumpParser.js:167-169 | the search does not match inside or across text that lacks the keyword |
| `SqlRoundTrip.NumberGrammar` | core/parsing/sqlDumpParser.js:112 | a token counts as numeric exactly when it is a signed decimal |
| `SqlPrinter.EveryStringPrints` | core/parsing/sqlDumpParser.js:69-73 | every string has a legal encoding |
| `SqlPrinter.MysqlStringsPrint` | core/parsing/sqlDumpParser.js:83-91 | the escapes of MySQL's dump tool decode to the string |
| `SqlTheorem.DumpRoundTrip` | core/parsing/sqlDumpParser.js:223-269 | extracting a table from a printed dump over any tables returns exactly its rows in order, or the verdict that they pass the limit |
| `SqlTheorem.SingleTableRoundTrip` | core/parsing/sqlDumpParser.js:246-247 | a dump with one table needs none to be named |
| `SqlTheorem.RowIsByColumn` | core/parsing/sqlDumpParser.js:188-190 | a row maps each column to its value, to null where the tuple is short and to the last one of a repeated name; only a column named after the prototype gets no key |
| `SqlTheorem.PrototypeExample` | core/parsing/sqlDumpParser.js:190 | a dump row with a column called `__proto__` loses it |
| `SqlTheorem.EmptyTableNameBreaks` | core/parsing/sqlDumpParser.js:163-190 | a dump that passes the first pass and breaks the second |
| `BoundedParsing.Collector.OnData` | core/parsing/streamingParser.js:123-137 | the handler adds one event to the history that the state stands for |
| `BoundedParsing.Collector.OnEnd` | core/parsing/streamingParser.js:139-140 | likewise for end and close |
| `BoundedParsing.Collector.OnError` | core/parsing/streamingParser.js:117-121 | likewise for an error |
| `BoundedParsing.CollectorAgreesWithCount` | core/parsing/streamingParser.js:107-143 | exceeded exactly when more than the limit come before the first terminal event, else that event decides with all records in order |
| `BoundedParsing.SettlesOnce` | core/parsing/streamingParser.js:112-121 | no event changes a settled collector, and it never keeps more records than the limit |
| `BoundedParsing.GuardrailsAgree` | core/guardrail/streamingGuardrail.js:319-363 | in every format the early decision is the one the full count gives, against 20000 rows on shared storage and 50000 elsewhere, and an allowed import has all its records |
| `BoundedParsing.ParsesExactly` | core/parsing/streamingParser.js:107-143 | what each format returns under a ceiling: too long, all records, or which failure |
| `BoundedParsing.CeilingOnlyRejects` | core/parsing/streamingParser.js:107-143 | a ceiling turns no readable file into a failure and reports it as too long exactly when it is |
| `Staging.StagingArea.ClearStagedRows` | worker/importPipeline.js:72-81 | removes exactly the import's documents |
| `Staging.StagingArea.InsertMany` | worker/importPipeline.js:95 | keeps what is there, adds only documents of the batch, leaves none of them without its index taken, and succeeds exactly when all are appended, as when the unique index admits them all |
| `Staging.StagingArea.StageRows` | worker/importPipeline.js:83-99 | one document for each record, indexes from zero, in chunks of 1000; cannot fail after a clear |
| `Staging.StagingArea.Restage` | worker/importPipeline.js:176-183 | whatever was there before: exactly as many documents of the import as records, the k-th with index k and record k, and the documents of all other imports as they were |
| `Staging.RestageAfterCrashes` | worker/importPipeline.js:72-99 | after any number of crashed attempts a retry ends like one clean attempt: other imports untouched, the k-th document of the import with index k and record k, and no further one |
| `Staging.StagedRowsAreFresh` | worker/importPipeline.js:88-94 | the k-th row of the import has index k, raw row and custom fields both record k, nothing mapped, no verdict, and is pending; addresses and indexes are what mapping, validation and commit start from |

## Left out

- SameAsCrashFree: says nothing about when a row was touched; timestamps are not modelled.
- SettlesIffSound: takes the reference of a row's entity as fixed by the row (`refOf`), distinct from row to row and new to the target, also when the row is written twice.
- OverlapsWriteOnceIff: takes references in the same way.
- CommittedMeansWrittenIff: likewise.
- FindInsert: the INSERT pattern is a hand-made matcher for this one expression; no part of it can match in a second way, so backtracking is not modelled.
- DumpRoundTrip: identifiers are non-empty and free of white space, dots, commas, quotes, brackets and parentheses; the statements for the table all have column lists; text between statements does not contain the keyword.
- NormalizeIsNormal: lower-casing is written out for ASCII and the two characters outside it that end as an ASCII letter.
- ResolvedTableIsThere: statements for one table with and without column lists keep the source's last-one-wins rule, which is modelled but not argued to be what a user wants.
- GuardrailsAgree: a missing row list (the empty table name without rows) is read as an empty one, and the limits are the defaults, not the environment's.
- ValidateRows: the grouping query is given its MongoDB meaning as a function over the import's rows; the in-memory aggregation is simplified in the source and is not modelled.
- MappedFieldsAreTheCoerced: what a coercion makes of an inherited value is left to the coercion, as for a cell.
- Apply: saving the map as a profile, and its label check after the rows are written, are not modelled; coercion is an arbitrary function that may give nothing or throw.
- ComputeSessionExecutionOrder: keys that look like array indexes, which the runtime would list first, are kept in insertion order; an inherited property name as an entity is not modelled. Order within the result beyond what is stated is not claimed.
- Sort: both runs of the algorithm share one loop body here; messages are data, not text.
- CommitBatch: a status update that throws inside the `try` (line 127) is kept out: an update happens or the process dies. So are retries of the callback inside `withTransaction`.
- CursorStaged: the cursor is a snapshot, as in the in-memory store; MongoDB reads lazily in batches. The tenant is folded into the import's id.
- Row addresses stand for `_id`; identities and mapped values are strings, an absent key stands for null, and numeric tokens keep their digits, so neither JS numbers nor dates are modelled.
- Strings are sequences of Unicode scalar values rather than UTF-16 code units.
- The bodies of `commitRow`, `findExistingIdentities` and `resolveReferences` belong to the targets and are parameters; session-wide reference resolution is not modelled.
- Single-row edits after validation deliberately skip the whole-file checks, so the distinct-identity facts are not meant to survive them; they are not modelled.
- The Cloud Run pipeline's own commit step accepts only validated jobs, so restarts here go through the queue worker.
- Readers of CSV, JSON and Excel files are taken as streams of records; byte ceilings, messages and upgrade hints of the guardrail are left out.
- HTTP, authentication, queue and connection adapters, logging, the event bus and the user interface.
