/** Imports of one or two rows at which a promise of the commit loop fails. */
module CommitExamples {
  import opened Wrappers
  import opened StagedRows
  import opened CommitEngine
  import opened CommitProtocol
  import opened CommitRecovery
  import opened CommitReach
  import opened CommitMarker
  import opened CommitNecessity
  import opened CommitOverlap
  import opened CommitResume
  import opened CommitWorker
  import opened ImportJobs

  /** A valid row whose identity is "x". */
  function RowX(i: nat): Row {
    Row(i, 0, i, map[], map[], map["id" := "x"], Valid, [], Pending, None, None)
  }

  const ONE_ROW: seq<Row> := [RowX(0)]
  const TWO_ROWS: seq<Row> := [RowX(0), RowX(1)]

  /** What refuses a row in one target: a second unique index of it. */
  const OTHER_INDEX := Error(Some(11000), "duplicate key on another index")

  function TargetOf(reject: Fields -> Option<Error>, uniqueIndex: bool, txn: bool): Config {
    Config(Descriptor("id", reject, (i: nat) => EntityRef(i, "Party"), uniqueIndex, txn), txn, 0)
  }

  function Refusing(): Config {
    TargetOf((f: Fields) => Some(OTHER_INDEX), true, false)
  }

  function Open(uniqueIndex: bool, txn: bool): Config {
    TargetOf((f: Fields) => None, uniqueIndex, txn)
  }

  /** Somebody else's entity, with the same identity. */
  const OTHERS: multiset<Entity> := multiset{Entity(EntityRef(7, "Party"), map["id" := "x"])}

  lemma TheyAreStaged(cfg: Config)
    requires cfg.job == 0
    ensures Staged(ONE_ROW, cfg) && Staged(TWO_ROWS, cfg)
  {
  }

  /** A refusal that looks like a duplicate key: committed after one crash, though
      nothing is ever written. */
  lemma LookalikeExample() returns (es: seq<Event>)
    ensures Sequential(es) && !CommittedMeansWritten(ONE_ROW, multiset{}, Refusing(), es)
  {
    TheyAreStaged(Refusing());
    assert Lookalike(Refusing(), ONE_ROW[0]);
    es := LookalikeIsLost(ONE_ROW, multiset{}, Refusing(), 0);
  }

  /** Nothing is refused, but the target has the identity: somebody else's entity
      passes for the row's own. */
  lemma PresentExample() returns (es: seq<Event>)
    ensures Sequential(es) && !CommittedMeansWritten(ONE_ROW, OTHERS, Open(true, false), es)
  {
    var cfg := Open(true, false);
    TheyAreStaged(cfg);
    assert Taken(OTHERS, cfg.d, ONE_ROW[0]) by {
      assert Entity(EntityRef(7, "Party"), map["id" := "x"]) in OTHERS;
    }
    es := PresentIsLost(ONE_ROW, OTHERS, cfg, 0);
  }

  /** Two rows with one identity, and the first one's entity passes for both. */
  lemma ClashExample() returns (es: seq<Event>)
    ensures Sequential(es) && !CommittedMeansWritten(TWO_ROWS, multiset{}, Open(true, false), es)
  {
    var cfg := Open(true, false);
    TheyAreStaged(cfg);
    assert Clash(cfg.d, TWO_ROWS[0], TWO_ROWS[1]);
    var lost;
    es, lost := ClashIsLost(TWO_ROWS, multiset{}, cfg, 0, 1);
  }

  /** Two overlapping runs over one row: it ends as failed, with its entity there. */
  lemma StaleExample(txn: bool) returns (es: seq<Event>)
    ensures var s := Exec(Initial(ONE_ROW, multiset{}), Open(true, txn), es);
      && |s.rows| == 1 && s.rows[0].commit.Failed?
      && EntityOf(Open(true, txn).d, ONE_ROW[0]) in s.target
  {
    var cfg := Open(true, txn);
    TheyAreStaged(cfg);
    assert FirstOfItsKind(ONE_ROW, multiset{}, cfg, 0);
    var before;
    before, es := StaleReaderFails(ONE_ROW, multiset{}, cfg, 0);
    WeakExec(ONE_ROW, multiset{}, cfg, es);
  }

  /** Without an index they write it twice, in a transaction or not. */
  lemma TwiceExample(txn: bool) returns (es: seq<Event>)
    ensures var x := EntityOf(Open(false, txn).d, ONE_ROW[0]);
      Exec(Initial(ONE_ROW, multiset{}), Open(false, txn), es).target[x] >= 2
  {
    TheyAreStaged(Open(false, txn));
    es := OverlapWritesTwice(ONE_ROW, multiset{}, Open(false, txn), 0);
  }

  /** All of a one-row import is committed, and the job completed with errors. */
  lemma ResumeExample() returns (es: seq<Event>)
    ensures Sequential(es)
    ensures var b := NextRun(ONE_ROW, multiset{}, Open(true, false), es);
      && |b.rows| == 1 && b.rows[0].commit.Committed?
      && FinalStatus(b.failed, SkippedRows(1, b.committed, b.failed)) == CompletedWithErrors
  {
    var cfg := Open(true, false);
    TheyAreStaged(cfg);
    assert ONE_ROW[..0] == [] && CountMine([], 0) == 0 && CountMine(ONE_ROW, 0) == 1;
    assert Good(cfg, ONE_ROW[0]);
    es := ResumeReportsErrors(ONE_ROW, multiset{}, cfg);
  }
}
