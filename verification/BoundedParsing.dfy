/** The event-driven collector that stops one record past a ceiling, the parsers
    built on it, and the guardrail decision on what they return. */
module BoundedParsing {
  import opened Wrappers
  import opened Sequences
  import opened Limits
  import opened StagedRows
  import opened SqlDump
  import opened SqlScan

  /** What a record stream emits. A data event may carry no record. */
  datatype Event = Data(record: Option<RawRow>) | End | Close | Error(message: string)

  datatype Outcome = Unsettled | Resolved(records: seq<RawRow>, exceeded: bool) | Rejected(message: string)

  datatype Collected = Collected(records: seq<RawRow>, outcome: Outcome)

  /** The effect of one event. Once settled, nothing changes any more. */
  function Feed(s: Collected, limit: Option<nat>, e: Event): Collected {
    if !s.outcome.Unsettled? then s
    else match e
      case Data(None) => s
      case Data(Some(r)) =>
        if Over(s.records + [r], limit) then Collected([], Resolved([], true))
        else s.(records := s.records + [r])
      case Error(message) => s.(outcome := Rejected(message))
      case _ => s.(outcome := Resolved(s.records, false))
  }

  function FeedAll(limit: Option<nat>, es: seq<Event>): Collected {
    if es == [] then Collected([], Unsettled)
    else Feed(FeedAll(limit, es[..|es| - 1]), limit, es[|es| - 1])
  }

  /** Handlers over mutable state, as the source registers them on the stream. */
  class Collector {
    const limit: Option<nat>
    var records: seq<RawRow>
    var outcome: Outcome
    ghost var trace: seq<Event>

    ghost predicate Valid()
      reads this
    {
      && Collected(records, outcome) == FeedAll(limit, trace)
      && !Over(records, limit)
    }

    constructor (limit: Option<nat>)
      ensures Valid() && this.limit == limit && trace == []
    {
      this.limit := limit;
      records, outcome, trace := [], Unsettled, [];
    }

    method OnData(record: Option<RawRow>)
      requires Valid()
      modifies this
      ensures Valid() && trace == old(trace) + [Data(record)]
    {
      trace := trace + [Data(record)];
      assert trace[..|trace| - 1] == old(trace);
      if !outcome.Unsettled? || record.None? {
        return;
      }
      records := records + [record.value];
      assert limit.Some? ==> |records| <= limit.value + 1;
      if limit.Some? && |records| > limit.value {
        records := [];
        outcome := Resolved([], true);
      }
    }

    method OnEnd(e: Event)
      requires Valid() && (e.End? || e.Close?)
      modifies this
      ensures Valid() && trace == old(trace) + [e]
    {
      trace := trace + [e];
      assert trace[..|trace| - 1] == old(trace);
      if outcome.Unsettled? {
        outcome := Resolved(records, false);
      }
    }

    method OnError(message: string)
      requires Valid()
      modifies this
      ensures Valid() && trace == old(trace) + [Error(message)]
    {
      trace := trace + [Error(message)];
      assert trace[..|trace| - 1] == old(trace);
      if outcome.Unsettled? {
        outcome := Rejected(message);
      }
    }
  }

  // ------------------------------------------- the same, by counting everything

  predicate Terminal(e: Event) {
    !e.Data?
  }

  /** Every record ahead of the first terminal event, counted without a ceiling. */
  function RecordsBefore(es: seq<Event>): seq<RawRow> {
    if es == [] || Terminal(es[0]) then []
    else RecordIn(es[0]) + RecordsBefore(es[1..])
  }

  function FirstTerminal(es: seq<Event>): Option<Event> {
    if es == [] then None else if Terminal(es[0]) then Some(es[0]) else FirstTerminal(es[1..])
  }

  function RecordIn(e: Event): seq<RawRow> {
    if e.Data? && e.record.Some? then [e.record.value] else []
  }

  lemma {:induction false} RecordsSnoc(es: seq<Event>, e: Event)
    ensures FirstTerminal(es + [e])
         == if FirstTerminal(es).Some? then FirstTerminal(es) else if Terminal(e) then Some(e) else None
    ensures RecordsBefore(es + [e])
         == if FirstTerminal(es).Some? then RecordsBefore(es) else RecordsBefore(es) + RecordIn(e)
    decreases es
  {
    if es == [] {
      assert es + [e] == [e];
      assert [e][1..] == [];
      ConcatEmpty(RecordIn(e));
    } else {
      TailConcat(es, [e]);
      RecordsSnoc(es[1..], e);
      if FirstTerminal(es).None? {
        ConcatAssoc(RecordIn(es[0]), RecordsBefore(es[1..]), RecordIn(e));
      }
    }
  }

  /** For every trace: exceeded exactly when more than `limit` records come before
      the first terminal event; otherwise that event decides, with all of them. */
  lemma {:induction false} CollectorAgreesWithCount(limit: Option<nat>, es: seq<Event>)
    ensures FeedAll(limit, es) ==
      var all := RecordsBefore(es);
      if Over(all, limit) then Collected([], Resolved([], true))
      else match FirstTerminal(es)
        case None => Collected(all, Unsettled)
        case Some(Error(message)) => Collected(all, Rejected(message))
        case Some(_) => Collected(all, Resolved(all, false))
  {
    if es != [] {
      var n := |es| - 1;
      CollectorAgreesWithCount(limit, es[..n]);
      RecordsSnoc(es[..n], es[n]);
      SplitLast(es);
      ConcatEmpty(RecordsBefore(es[..n]));
    }
  }

  /** It settles once, and never holds more records than the limit. */
  lemma {:induction false} SettlesOnce(limit: Option<nat>, es: seq<Event>, more: seq<Event>)
    ensures !Over(FeedAll(limit, es).records, limit)
    ensures !FeedAll(limit, es).outcome.Unsettled? ==> FeedAll(limit, es + more) == FeedAll(limit, es)
    decreases |es| + |more|
  {
    if more == [] {
      assert es + more == es;
      if es != [] { SettlesOnce(limit, es[..|es| - 1], []); }
    } else {
      var n := |more| - 1;
      SettlesOnce(limit, es, more[..n]);
      assert (es + more)[..|es + more| - 1] == es + more[..n];
    }
  }

  // ---------------------------------------------------------------- the formats

  /** An input file, as the format's reader presents it. */
  datatype Source =
    | Stream(events: seq<Event>)
    | Workbook(rows: seq<RawRow>)
    | SqlText(sql: string, sqlTable: Option<string>)

  datatype Parsed = Parsed(records: seq<RawRow>, exceeded: bool)

  datatype ParseFailure = NotSettled | StreamError(message: string) | SqlError(error: ExtractError)

  /** Parse under a ceiling. */
  function ParseBounded(src: Source, limit: Option<nat>): Result<Parsed, ParseFailure> {
    match src
    case Stream(es) =>
      (match FeedAll(limit, es).outcome
       case Unsettled => Err(NotSettled)
       case Rejected(message) => Err(StreamError(message))
       case Resolved(records, exceeded) => Ok(Parsed(records, exceeded)))
    case Workbook(rows) => if Over(rows, limit) then Ok(Parsed([], true)) else Ok(Parsed(rows, false))
    case SqlText(sql, sqlTable) =>
      match ExtractOf(ReadDump(sql), sqlTable, limit)
      case Err(e) => Err(SqlError(e))
      case Ok(x) => Ok(Parsed(if x.exceeded || x.rows.None? then [] else x.rows.value, x.exceeded))
  }

  /** Every record of the file, with no ceiling at all. */
  function AllRecords(src: Source): seq<RawRow> {
    match src
    case Stream(es) => RecordsBefore(es)
    case Workbook(rows) => rows
    case SqlText(sql, sqlTable) =>
      match Resolve(NamesOf(ReadDump(sql).statements), sqlTable)
      case Err(_) => []
      case Ok(t) => RowsOf(ReadDump(sql).statements, t)
  }

  // ------------------------------------------------------------------ guardrail

  datatype StorageMode = Shared | Dedicated | Byod | Local

  const SHARED_MAX_IMPORT_ROWS := 20000
  const DEDICATED_MAX_IMPORT_ROWS := 50000

  function RowLimit(mode: StorageMode): nat {
    if mode.Shared? then SHARED_MAX_IMPORT_ROWS else DEDICATED_MAX_IMPORT_ROWS
  }

  datatype Verdict = Verdict(allowed: bool, limit: nat, records: Option<seq<RawRow>>)

  /** The decision that parses under the ceiling first. */
  function CheckGuardrailStreaming(mode: StorageMode, src: Source): Result<Verdict, ParseFailure> {
    var limit := RowLimit(mode);
    match ParseBounded(src, Some(limit))
    case Err(e) => Err(e)
    case Ok(p) => Ok(if p.exceeded then Verdict(false, limit, None) else Verdict(true, limit, Some(p.records)))
  }

  /** The decision on a count. */
  function CheckImportGuardrail(mode: StorageMode, rowCount: nat): bool {
    !(rowCount > RowLimit(mode))
  }

  /** In every format the early decision is the one the full count would have given,
      with 20000 rows allowed on shared storage and 50000 elsewhere, and an allowed
      import has all its records. */
  lemma GuardrailsAgree(mode: StorageMode, src: Source)
    requires CheckGuardrailStreaming(mode, src).Ok?
    ensures var v, tier := CheckGuardrailStreaming(mode, src).value, if mode == Shared then 20000 else 50000;
      && v.limit == tier
      && (v.allowed <==> |AllRecords(src)| <= tier)
      && (v.records == if v.allowed then Some(AllRecords(src)) else None)
  {
    match src
    case Stream(es) => CollectorAgreesWithCount(Some(RowLimit(mode)), es);
    case Workbook(_) =>
    case SqlText(_, _) =>
  }

  /** The decision on a count that is already known. */
  lemma CountDecides(mode: StorageMode, rowCount: nat)
    ensures CheckImportGuardrail(mode, rowCount) <==> rowCount <= if mode == Shared then 20000 else 50000
  {
  }

  /** Parsing under a ceiling, by format: a stream that passes the ceiling is too long
      whatever follows, and else its first terminal event decides; a workbook can always
      be read; a dump is too long, read or refused as its extraction is. */
  lemma ParsesExactly(src: Source, limit: Option<nat>)
    ensures var r := ParseBounded(src, limit);
      match src
      case Stream(es) =>
        if Over(RecordsBefore(es), limit) then r == Ok(Parsed([], true))
        else (match FirstTerminal(es)
              case None => r == Err(NotSettled)
              case Some(Error(message)) => r == Err(StreamError(message))
              case Some(_) => r == Ok(Parsed(RecordsBefore(es), false)))
      case Workbook(rows) => r == Ok(if Over(rows, limit) then Parsed([], true) else Parsed(rows, false))
      case SqlText(sql, sqlTable) =>
        exists x :: ExtractionOk(ReadDump(sql), sqlTable, limit, x) && ParsedFrom(x, r)
  {
    match src
    case Stream(es) => CollectorAgreesWithCount(limit, es);
    case Workbook(_) =>
    case SqlText(sql, sqlTable) =>
      ExtractionIsOk(ReadDump(sql), sqlTable, limit);
      assert ParsedFrom(ExtractOf(ReadDump(sql), sqlTable, limit), ParseBounded(src, limit));
  }

  /** The parser's result for a dump with this extraction. */
  ghost predicate ParsedFrom(x: Result<Extract, ExtractError>, r: Result<Parsed, ParseFailure>) {
    match x
    case Err(e) => r == Err(SqlError(e))
    case Ok(t) =>
      r.Ok? && r.value.exceeded == t.exceeded
      && r.value.records == if t.exceeded || t.rows.None? then [] else t.rows.value
  }

  /** The ceiling never turns a readable file into a failure, and reports it as too
      long exactly when it is. */
  lemma CeilingOnlyRejects(src: Source, limit: nat)
    requires ParseBounded(src, None).Ok?
    ensures ParseBounded(src, Some(limit)).Ok?
    ensures ParseBounded(src, Some(limit)).value.exceeded <==> |AllRecords(src)| > limit
  {
    match src
    case Stream(es) =>
      CollectorAgreesWithCount(None, es);
      CollectorAgreesWithCount(Some(limit), es);
    case Workbook(_) =>
    case SqlText(sql, sqlTable) => SqlCeiling(ReadDump(sql), sqlTable, limit);
  }

  lemma SqlCeiling(d: Dump, sqlTable: Option<string>, limit: nat)
    requires ExtractOf(d, sqlTable, None).Ok?
    ensures ExtractOf(d, sqlTable, Some(limit)).Ok?
    ensures ExtractOf(d, sqlTable, Some(limit)).value.exceeded
      <==> |RowsOf(d.statements, Resolve(NamesOf(d.statements), sqlTable).value)| > limit
  {
  }
}
