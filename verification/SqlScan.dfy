/** The two passes over a dump, and the extraction of one table built on them. */
module SqlScan {
  import opened Wrappers
  import opened Sequences
  import opened Limits
  import opened StagedRows
  import opened Text
  import opened SqlDump
  import opened SqlParser

  datatype Scan = Scan(names: seq<string>, rows: Option<seq<RawRow>>, hadColumns: bool, exceeded: bool)

  /** The empty table name is falsy in the source, so its row list does not exist,
      yet it is compared and pushed to. */
  datatype ScanError = Malformed(error: ParseError) | NoRowList

  /** The statements up to the one in which table `t` passes the limit. */
  function UpToLimit(sts: seq<Statement>, t: string, limit: nat): seq<Statement> {
    if sts != [] && |RowsOf(sts[..|sts| - 1], t)| > limit then UpToLimit(sts[..|sts| - 1], t, limit) else sts
  }

  /** What a scan returns, said of the dump as a whole. */
  function ScanOf(d: Dump, target: Option<string>, limit: Option<nat>): Result<Scan, ScanError> {
    match target
    case None =>
      if d.error.Some? then Err(Malformed(d.error.value)) else Ok(Scan(NamesOf(d.statements), None, false, false))
    case Some(t) =>
      var rows := RowsOf(d.statements, t);
      if t == "" && rows != [] then Err(NoRowList)
      else if Over(rows, limit) then
        Ok(Scan(NamesOf(UpToLimit(d.statements, t, limit.value)), Some([]), true, true))
      else if d.error.Some? then Err(Malformed(d.error.value))
      else Ok(Scan(NamesOf(d.statements), if t == "" then None else Some(rows), LastHadColumns(d.statements, t), false))
  }

  // ------------------------------------------------------- one statement's tuples

  /** `columns` is what to push rows for, if the statement is to be pushed at all. */
  datatype Sink = Sink(columns: Option<seq<string>>, isList: bool, limit: Option<nat>)

  datatype TupleScan =
    | Walked(next: nat, rows: seq<RawRow>)
    | TooMany
    | NotAList
    | Broken(error: ParseError)

  function Pushed(sink: Sink, rows: seq<RawRow>, tuples: seq<seq<Cell>>): seq<RawRow> {
    if sink.columns.Some? then rows + RowsOfTuples(sink.columns.value, tuples) else rows
  }

  /** The outcome for a statement whose tuples are `t`, with `rows` collected so far. */
  ghost predicate TupleScanOk(sink: Sink, rows: seq<RawRow>, t: Tuples, sql: string, r: TupleScan) {
    if sink.columns.Some? && !sink.isList && t.values != [] then r == NotAList
    else if sink.columns.Some? && Over(Pushed(sink, rows, t.values), sink.limit) then r == TooMany
    else if t.error.Some? then r == Broken(t.error.value)
    else r.Walked? && r.next <= |sql| && sql[r.next..] == t.rest && r.rows == Pushed(sink, rows, t.values)
  }

  function OntoTuples(seen: seq<seq<Cell>>, t: Tuples): Tuples {
    t.(values := seen + t.values)
  }

  /** One turn of the loop over tuples. */
  datatype TupleTurn = End(next: nat) | Tuple(values: seq<Cell>, next: nat) | Stopped(error: ParseError)

  /** Past white space and commas. */
  method SkipSeparatorsFrom(sql: string, start: nat) returns (i: nat)
    requires start <= |sql|
    ensures start <= i <= |sql| && SkipSeparators(sql[start..]) == sql[i..]
    ensures i < |sql| ==> !IsSpace(sql[i]) && sql[i] != ','
  {
    i := start;
    while i < |sql| && (IsSpace(sql[i]) || sql[i] == ',')
      invariant start <= i <= |sql| && SkipSeparators(sql[start..]) == SkipSeparators(sql[i..])
    {
      assert sql[i..][1..] == sql[i + 1..];
      i := i + 1;
    }
  }

  method TupleStep(sql: string, start: nat) returns (t: TupleTurn)
    requires start <= |sql|
    ensures t.End? ==> start <= t.next <= |sql| && ReadTuples(sql[start..]) == Tuples([], sql[t.next..], None)
    ensures t.Tuple? ==>
      && start < t.next <= |sql|
      && ReadTuples(sql[start..]) == OntoTuples([t.values], ReadTuples(sql[t.next..]))
    ensures t.Stopped? ==> ReadTuples(sql[start..]).values == [] && ReadTuples(sql[start..]).error == Some(t.error)
  {
    var i := SkipSeparatorsFrom(sql, start);
    if i >= |sql| || sql[i] == ';' {
      if i < |sql| {
        assert sql[i..][1..] == sql[i + 1..];
        return End(i + 1);
      }
      return End(i);
    }
    if sql[i] != '(' {
      return End(i);
    }
    assert sql[i..][1..] == sql[i + 1..];
    var r := ParseTuple(sql, i + 1);
    match r
    case Err(e) => return Stopped(e);
    case Ok((values, next)) => return Tuple(values, next);
  }

  lemma PushOne(sink: Sink, rows: seq<RawRow>, seen: seq<seq<Cell>>, values: seq<Cell>)
    requires sink.columns.Some?
    ensures Pushed(sink, rows, seen + [values]) == Pushed(sink, rows, seen) + [RowOf(sink.columns.value, values)]
  {
  }

  /** Only more rows can come. */
  lemma PushedGrows(sink: Sink, rows: seq<RawRow>, seen: seq<seq<Cell>>, more: seq<seq<Cell>>)
    ensures |Pushed(sink, rows, seen)| <= |Pushed(sink, rows, seen + more)|
  {
  }

  method ScanTuples(sql: string, start: nat, sink: Sink, rows0: seq<RawRow>) returns (r: TupleScan)
    requires start <= |sql| && !Over(rows0, sink.limit)
    ensures TupleScanOk(sink, rows0, ReadTuples(sql[start..]), sql, r)
    ensures r.Walked? ==> start <= r.next
  {
    var i, rows := start, rows0;
    ghost var seen: seq<seq<Cell>> := [];
    ghost var all := ReadTuples(sql[start..]);
    assert all == OntoTuples([], all) && Pushed(sink, rows0, []) == rows0;
    while true
      invariant start <= i <= |sql|
      invariant all == OntoTuples(seen, ReadTuples(sql[i..]))
      invariant rows == Pushed(sink, rows0, seen) && !Over(rows, sink.limit)
      invariant sink.columns.Some? && !sink.isList ==> seen == []
      decreases |sql| - i
    {
      var t := TupleStep(sql, i);
      match t
      case End(next) =>
        assert seen + [] == seen;
        return Walked(next, rows);
      case Stopped(e) =>
        assert seen + [] == seen;
        return Broken(e);
      case Tuple(values, next) =>
        ghost var more := ReadTuples(sql[next..]);
        assert seen + ([values] + more.values) == seen + [values] + more.values;
        if sink.columns.Some? {
          if !sink.isList { return NotAList; }
          PushOne(sink, rows0, seen, values);
          rows := rows + [RowOf(sink.columns.value, values)];
          PushedGrows(sink, rows0, seen + [values], more.values);
          if Over(rows, sink.limit) { return TooMany; }
        }
        seen := seen + [values];
        i := next;
    }
  }

  // ---------------------------------------------------------- the whole scan

  lemma Snoc(sts: seq<Statement>, st: Statement, t: string)
    ensures RowsOf(sts + [st], t)
         == RowsOf(sts, t) + (if st.table == t && HasColumns(st) then RowsOfTuples(st.columns.value, st.tuples) else [])
    ensures NamesOf(sts + [st])
         == if st.table in NamesOf(sts) then NamesOf(sts) else NamesOf(sts) + [st.table]
    ensures LastHadColumns(sts + [st], t) == if st.table == t then HasColumns(st) else LastHadColumns(sts, t)
  {
    assert (sts + [st])[..|sts + [st]| - 1] == sts;
  }

  lemma {:induction false} RowsGrow(sts: seq<Statement>, more: seq<Statement>, t: string)
    ensures |RowsOf(sts, t)| <= |RowsOf(sts + more, t)|
  {
    if more == [] {
      assert sts + more == sts;
    } else {
      var n := |more| - 1;
      RowsGrow(sts, more[..n], t);
      assert sts + more == sts + more[..n] + [more[n]];
      Snoc(sts + more[..n], more[n], t);
    }
  }

  lemma UpToStep(sts: seq<Statement>, st: Statement, t: string, limit: nat)
    ensures UpToLimit(sts + [st], t, limit)
         == if |RowsOf(sts, t)| > limit then UpToLimit(sts, t, limit) else sts + [st]
  {
    assert (sts + [st])[..|sts + [st]| - 1] == sts;
  }

  /** Where the limit is passed does not depend on what comes later. */
  lemma {:induction false} LimitPassedAt(sts: seq<Statement>, more: seq<Statement>, t: string, limit: nat)
    requires |RowsOf(sts, t)| > limit && UpToLimit(sts, t, limit) == sts
    ensures UpToLimit(sts + more, t, limit) == sts
  {
    if more == [] {
      ConcatEmpty(sts);
    } else {
      var n := |more| - 1;
      SplitLast(more);
      ConcatAssoc(sts, more[..n], [more[n]]);
      RowsGrow(sts, more[..n], t);
      LimitPassedAt(sts, more[..n], t, limit);
      UpToStep(sts + more[..n], more[n], t, limit);
    }
  }

  function OntoDump(seen: seq<Statement>, d: Dump): Dump {
    d.(statements := seen + d.statements)
  }

  /** What the scan has gathered from the statements behind it. */
  datatype State = State(names: seq<string>, rows: seq<RawRow>, hadColumns: bool)

  ghost predicate StateOk(s: State, seen: seq<Statement>, target: Option<string>, limit: Option<nat>) {
    && s.names == NamesOf(seen)
    && match target
       case None => s.rows == [] && !s.hadColumns
       case Some(t) =>
         && s.rows == RowsOf(seen, t) && !Over(s.rows, limit) && (t == "" ==> s.rows == [])
         && s.hadColumns == LastHadColumns(seen, t)
  }

  function SinkOf(st: Statement, target: Option<string>, limit: Option<nat>): Sink {
    Sink(if target == Some(st.table) && HasColumns(st) then st.columns else None, target != Some(""), limit)
  }

  function After(s: State, st: Statement, target: Option<string>, rows: seq<RawRow>): State {
    State(if st.table in s.names then s.names else s.names + [st.table], rows,
          if target == Some(st.table) then HasColumns(st) else s.hadColumns)
  }

  lemma PushedIsRows(seen: seq<Statement>, st: Statement, t: string, limit: Option<nat>)
    ensures Pushed(SinkOf(st, Some(t), limit), RowsOf(seen, t), st.tuples) == RowsOf(seen + [st], t)
  {
    Snoc(seen, st, t);
  }

  /** The scan of a statement ends well: on to the next. */
  lemma StateNext(s: State, seen: seq<Statement>, st: Statement, target: Option<string>, limit: Option<nat>,
                  sql: string, t: Tuples, r: TupleScan)
    requires StateOk(s, seen, target, limit) && t.values == st.tuples
    requires TupleScanOk(SinkOf(st, target, limit), s.rows, t, sql, r) && r.Walked?
    ensures StateOk(After(s, st, target, r.rows), seen + [st], target, limit)
  {
    Snoc(seen, st, if target.Some? then target.value else "");
    if target.Some? { PushedIsRows(seen, st, target.value, limit); }
  }

  /** The scan of a statement ends it all: with the answer for the whole dump. */
  lemma StateStop(s: State, seen: seq<Statement>, st: Statement, more: seq<Statement>, error: Option<ParseError>,
                  target: Option<string>, limit: Option<nat>, sql: string, t: Tuples, r: TupleScan)
    requires StateOk(s, seen, target, limit) && t.values == st.tuples
    requires TupleScanOk(SinkOf(st, target, limit), s.rows, t, sql, r) && !r.Walked?
    requires t.error.Some? ==> more == [] && error == t.error
    ensures ScanOf(Dump(seen + [st] + more, error), target, limit) == match r
      case TooMany => Ok(Scan(After(s, st, target, []).names, Some([]), true, true))
      case NotAList => Err(NoRowList)
      case Broken(e) => Err(Malformed(e))
      case Walked(_, _) => Err(NoRowList)
  {
    if target.Some? {
      PushedIsRows(seen, st, target.value, limit);
      RowsGrow(seen + [st], more, target.value);
      Snoc(seen, st, target.value);
      if r.TooMany? {
        UpToStep(seen, st, target.value, limit.value);
        LimitPassedAt(seen + [st], more, target.value, limit.value);
      } else if r.Broken? {
        assert seen + [st] + more == seen + [st];
      }
    }
  }

  /** The statement that starts at the first prefix of `x`, and what follows it. */
  ghost function HereIn(p: Prefix): Statement {
    StatementOf(p, ReadTuples(p.rest).values)
  }

  ghost function MoreAfter(p: Prefix): Dump {
    var t := ReadTuples(p.rest);
    if t.error.Some? then Dump([], t.error) else ReadDump(t.rest)
  }

  lemma DumpStep(x: string, p: Prefix, seen: seq<Statement>)
    requires FindPrefix(x) == Some(p)
    ensures OntoDump(seen, ReadDump(x)) == OntoDump(seen + [HereIn(p)], MoreAfter(p))
  {
    var more := MoreAfter(p);
    assert seen + ([HereIn(p)] + more.statements) == seen + [HereIn(p)] + more.statements;
    assert [HereIn(p)] + [] == [HereIn(p)];
  }

  datatype Progress = Stop(answer: Result<Scan, ScanError>) | Go(state: State, next: nat)

  /** One statement: collect its tuples if it is wanted, and walk over them anyway. */
  method ScanStatement(sql: string, p: Prefix, from: nat, s: State, target: Option<string>, limit: Option<nat>,
                       ghost seen: seq<Statement>)
    returns (r: Progress)
    requires from <= |sql| && sql[from..] == p.rest && StateOk(s, seen, target, limit)
    ensures r.Stop? ==> r.answer == ScanOf(OntoDump(seen + [HereIn(p)], MoreAfter(p)), target, limit)
    ensures r.Go? ==>
      && from <= r.next <= |sql| && StateOk(r.state, seen + [HereIn(p)], target, limit)
      && MoreAfter(p) == ReadDump(sql[r.next..])
  {
    ghost var t, here, more := ReadTuples(p.rest), HereIn(p), MoreAfter(p);
    var header := StatementOf(p, []);
    var sink := SinkOf(header, target, limit);
    var w := ScanTuples(sql, from, sink, s.rows);
    assert sink == SinkOf(here, target, limit);
    match w
    case Walked(next, rows) =>
      StateNext(s, seen, here, target, limit, sql, t, w);
      return Go(After(s, header, target, rows), next);
    case TooMany =>
      StateStop(s, seen, here, more.statements, more.error, target, limit, sql, t, w);
      return Stop(Ok(Scan(After(s, header, target, []).names, Some([]), true, true)));
    case NotAList =>
      StateStop(s, seen, here, more.statements, more.error, target, limit, sql, t, w);
      return Stop(Err(NoRowList));
    case Broken(e) =>
      StateStop(s, seen, here, more.statements, more.error, target, limit, sql, t, w);
      return Stop(Err(Malformed(e)));
  }

  /** One pass over the dump. The cursor goes from statement to statement wherever
      the text leads it; only what is gathered depends on the target. */
  method ScanSqlDump(sql: string, target: Option<string>, limit: Option<nat>) returns (r: Result<Scan, ScanError>)
    ensures r == ScanOf(ReadDump(sql), target, limit)
  {
    var i := 0;
    var s := State([], [], false);
    ghost var seen: seq<Statement> := [];
    assert sql[0..] == sql && ReadDump(sql) == OntoDump([], ReadDump(sql));
    while true
      invariant 0 <= i <= |sql| && StateOk(s, seen, target, limit)
      invariant ReadDump(sql) == OntoDump(seen, ReadDump(sql[i..]))
      decreases |sql| - i
    {
      var m := FindInsert(sql, i);
      if m.None? {
        assert seen + [] == seen;
        break;
      }
      var (p, from) := m.value;
      DumpStep(sql[i..], p, seen);
      var step := ScanStatement(sql, p, from, s, target, limit, seen);
      if step.Stop? {
        return step.answer;
      }
      s, i := step.state, step.next;
      seen := seen + [HereIn(p)];
    }
    return Ok(Scan(s.names, if target.Some? && target.value != "" then Some(s.rows) else None, s.hadColumns, false));
  }

  // ----------------------------------------------------------- the extraction

  datatype ExtractError =
    | Unreadable(error: ScanError)
    | NoInserts
    | TableNotFound(table: string, available: seq<string>)
    | Ambiguous(available: seq<string>)
    | NoColumnNames(table: string)

  datatype Extract = Extract(table: string, rows: Option<seq<RawRow>>, exceeded: bool)

  /** Which table to import: the one asked for, or the only one there is. */
  function Resolve(names: seq<string>, sqlTable: Option<string>): Result<string, ExtractError> {
    if names == [] then Err(NoInserts)
    else if sqlTable.Some? && sqlTable.value != "" then
      var t := UnquoteIdent(sqlTable.value);
      if t in names then Ok(t) else Err(TableNotFound(t, names))
    else if |names| == 1 then Ok(names[0])
    else Err(Ambiguous(names))
  }

  /** The answer, said of the dump as a whole: the dump must read to its end, the
      table must resolve, and then its rows are all there or known to be too many. */
  function ExtractOf(d: Dump, sqlTable: Option<string>, limit: Option<nat>): Result<Extract, ExtractError> {
    if d.error.Some? then Err(Unreadable(Malformed(d.error.value)))
    else match Resolve(NamesOf(d.statements), sqlTable)
      case Err(e) => Err(e)
      case Ok(t) =>
        var rows := RowsOf(d.statements, t);
        if t == "" && rows != [] then Err(Unreadable(NoRowList))
        else if Over(rows, limit) then Ok(Extract(t, Some([]), true))
        else if !LastHadColumns(d.statements, t) then Err(NoColumnNames(t))
        else Ok(Extract(t, if t == "" then None else Some(rows), false))
  }

  // ----------------------------------------- the answers, said of the statements

  /** The tables of the statements, each once, in the order in which they first appear. */
  ghost predicate ListsTables(names: seq<string>, sts: seq<Statement>) {
    && (forall t :: t in names <==> exists k :: 0 <= k < |sts| && sts[k].table == t)
    && (forall a, b :: 0 <= a < b < |names| ==> names[a] != names[b] && AppearsBefore(sts, names[a], names[b]))
  }

  ghost predicate AppearsBefore(sts: seq<Statement>, t: string, u: string) {
    exists k :: 0 <= k < |sts| && sts[k].table == t && forall j :: 0 <= j <= k ==> sts[j].table != u
  }

  /** No table is asked for; the empty name counts as none. */
  ghost predicate NoneAsked(sqlTable: Option<string>) {
    sqlTable == None || sqlTable == Some("")
  }

  /** `t` is the table to extract: the one asked for, or the only one. */
  ghost predicate Chosen(sts: seq<Statement>, sqlTable: Option<string>, t: string) {
    && (exists k :: 0 <= k < |sts| && sts[k].table == t)
    && (if NoneAsked(sqlTable) then forall k :: 0 <= k < |sts| ==> sts[k].table == t
        else t == UnquoteIdent(sqlTable.value))
  }

  /** The last statement for `t` names no columns. */
  ghost predicate LastIsBare(sts: seq<Statement>, t: string) {
    exists k :: 0 <= k < |sts| && sts[k].table == t && (sts[k].columns == None || sts[k].columns == Some([]))
                && forall j :: k < j < |sts| ==> sts[j].table != t
  }

  /** Every answer of the extraction, from what the dump holds. */
  ghost predicate ExtractionOk(d: Dump, sqlTable: Option<string>, limit: Option<nat>,
                               r: Result<Extract, ExtractError>)
  {
    var sts := d.statements;
    && (d.error.Some? ==> r == Err(Unreadable(Malformed(d.error.value))))
    && (d.error.None? ==>
          && (sts == [] ==> r == Err(NoInserts))
          && (NoneAsked(sqlTable) && (exists i, j :: 0 <= i < j < |sts| && sts[i].table != sts[j].table) ==>
                r.Err? && r.error.Ambiguous? && ListsTables(r.error.available, sts))
          && (!NoneAsked(sqlTable) && sts != []
              && (forall k :: 0 <= k < |sts| ==> sts[k].table != UnquoteIdent(sqlTable.value)) ==>
                && r.Err? && r.error.TableNotFound?
                && r.error.table == UnquoteIdent(sqlTable.value) && ListsTables(r.error.available, sts))
          && (forall t :: Chosen(sts, sqlTable, t) ==>
                var rows := RowsOf(sts, t);
                if t == "" && rows != [] then r == Err(Unreadable(NoRowList))
                else if limit.Some? && |rows| > limit.value then r == Ok(Extract(t, Some([]), true))
                else if LastIsBare(sts, t) then r == Err(NoColumnNames(t))
                else r == Ok(Extract(t, if t == "" then None else Some(rows), false))))
  }

  lemma {:induction false} NamesListTables(sts: seq<Statement>)
    ensures ListsTables(NamesOf(sts), sts)
  {
    if sts != [] {
      var n := |sts| - 1;
      NamesListTables(sts[..n]);
      forall t ensures t in NamesOf(sts) <==> exists k :: 0 <= k < |sts| && sts[k].table == t {
        NamesAreTables(sts, t);
      }
      var names := NamesOf(sts);
      forall a, b | 0 <= a < b < |names| ensures names[a] != names[b] && AppearsBefore(sts, names[a], names[b]) {
        NameOrder(sts, a, b);
      }
    }
  }

  lemma NameOrder(sts: seq<Statement>, a: nat, b: nat)
    requires sts != [] && ListsTables(NamesOf(sts[..|sts| - 1]), sts[..|sts| - 1])
    requires a < b < |NamesOf(sts)|
    ensures var names := NamesOf(sts); names[a] != names[b] && AppearsBefore(sts, names[a], names[b])
  {
    var n := |sts| - 1;
    var less, names := NamesOf(sts[..n]), NamesOf(sts);
    if b < |less| {
      assert AppearsBefore(sts[..n], less[a], less[b]);
      var k :| 0 <= k < n && sts[..n][k].table == less[a] && forall j :: 0 <= j <= k ==> sts[..n][j].table != less[b];
      assert sts[k].table == names[a] && forall j :: 0 <= j <= k ==> sts[j].table == sts[..n][j].table;
    } else {
      assert names[a] == less[a] && less[a] in less && names[b] == sts[n].table && names[b] !in less;
      var k :| 0 <= k < n && sts[..n][k].table == less[a];
      assert sts[k].table == names[a];
      forall j | 0 <= j <= k ensures sts[j].table != names[b] {
        assert sts[j] == sts[..n][j];
        assert sts[..n][j].table in less;
      }
    }
  }

  /** Whether the last statement for a table names its columns, said directly. */
  lemma {:induction false} LastHadColumnsIff(sts: seq<Statement>, t: string)
    requires exists k :: 0 <= k < |sts| && sts[k].table == t
    ensures LastHadColumns(sts, t) <==> !LastIsBare(sts, t)
  {
    var n := |sts| - 1;
    if sts[n].table != t {
      var k :| 0 <= k < |sts| && sts[k].table == t;
      assert sts[..n][k].table == t;
      LastHadColumnsIff(sts[..n], t);
      BareInFront(sts, t);
    }
  }

  lemma BareInFront(sts: seq<Statement>, t: string)
    requires sts != [] && sts[|sts| - 1].table != t
    ensures LastIsBare(sts, t) <==> LastIsBare(sts[..|sts| - 1], t)
  {
    var less := sts[..|sts| - 1];
    if LastIsBare(sts, t) {
      var k :| 0 <= k < |sts| && sts[k].table == t && (sts[k].columns == None || sts[k].columns == Some([]))
        && forall j :: k < j < |sts| ==> sts[j].table != t;
      assert less[k] == sts[k];
    }
    if LastIsBare(less, t) {
      var k :| 0 <= k < |less| && less[k].table == t && (less[k].columns == None || less[k].columns == Some([]))
        && forall j :: k < j < |less| ==> less[j].table != t;
      assert sts[k] == less[k];
      assert forall j :: k < j < |less| ==> sts[j] == less[j];
    }
  }

  /** With names that list the tables, the resolution is the one described. */
  lemma ResolveCases(sts: seq<Statement>, sqlTable: Option<string>)
    ensures var r := Resolve(NamesOf(sts), sqlTable);
      && (sts == [] ==> r == Err(NoInserts))
      && (NoneAsked(sqlTable) && (exists i, j :: 0 <= i < j < |sts| && sts[i].table != sts[j].table) ==>
            r == Err(Ambiguous(NamesOf(sts))))
      && (!NoneAsked(sqlTable) && sts != []
          && (forall k :: 0 <= k < |sts| ==> sts[k].table != UnquoteIdent(sqlTable.value)) ==>
            r == Err(TableNotFound(UnquoteIdent(sqlTable.value), NamesOf(sts))))
      && (forall t :: Chosen(sts, sqlTable, t) ==> r == Ok(t))
  {
    NamesListTables(sts);
    var names := NamesOf(sts);
    if sts != [] { assert sts[0].table in names; }
    if i, j :| 0 <= i < j < |sts| && sts[i].table != sts[j].table {
      assert sts[i].table in names && sts[j].table in names;
    }
    forall t | Chosen(sts, sqlTable, t) ensures Resolve(names, sqlTable) == Ok(t) {
      assert t in names;
      if NoneAsked(sqlTable) { OnlyName(sts, t); }
    }
  }

  lemma OnlyName(sts: seq<Statement>, t: string)
    requires sts != [] && forall k :: 0 <= k < |sts| ==> sts[k].table == t
    ensures NamesOf(sts) == [t]
  {
    NamesListTables(sts);
    var names := NamesOf(sts);
    assert sts[0].table in names;
    forall k | 0 <= k < |names| ensures names[k] == t {
      assert names[k] in names;
    }
  }

  lemma ExtractionIsOk(d: Dump, sqlTable: Option<string>, limit: Option<nat>)
    ensures ExtractionOk(d, sqlTable, limit, ExtractOf(d, sqlTable, limit))
  {
    var sts := d.statements;
    ResolveCases(sts, sqlTable);
    NamesListTables(sts);
    forall t | Chosen(sts, sqlTable, t) ensures LastHadColumns(sts, t) <==> !LastIsBare(sts, t) {
      LastHadColumnsIff(sts, t);
    }
  }

  method ListSqlTables(sql: string) returns (r: Result<seq<string>, ScanError>)
    ensures ReadDump(sql).error.Some? ==> r == Err(Malformed(ReadDump(sql).error.value))
    ensures ReadDump(sql).error.None? ==> r == Ok(NamesOf(ReadDump(sql).statements))
  {
    var s := ScanSqlDump(sql, None, None);
    match s
    case Err(e) => return Err(e);
    case Ok(scan) => return Ok(scan.names);
  }

  method ExtractSqlTable(sql: string, sqlTable: Option<string>, limit: Option<nat>)
    returns (r: Result<Extract, ExtractError>)
    ensures r == ExtractOf(ReadDump(sql), sqlTable, limit)
    ensures ExtractionOk(ReadDump(sql), sqlTable, limit, r)
  {
    ExtractionIsOk(ReadDump(sql), sqlTable, limit);
    var names := ListSqlTables(sql);
    if names.Err? {
      return Err(Unreadable(names.error));
    }
    var table := Resolve(names.value, sqlTable);
    if table.Err? {
      return Err(table.error);
    }
    var s := ScanSqlDump(sql, Some(table.value), limit);
    if s.Err? {
      return Err(Unreadable(s.error));
    }
    if !s.value.exceeded && !s.value.hadColumns {
      return Err(NoColumnNames(table.value));
    }
    return Ok(Extract(table.value, if s.value.exceeded then Some([]) else s.value.rows, s.value.exceeded));
  }

  // --------------------------------------------------- the two passes agree

  /** Once the name pass has read the dump, the row pass for any table finds the same
      names, or a part of them when it stops at the limit, and never a malformed
      dump. The one thing it can still trip over is the empty table name, and it
      does exactly when that table has rows. */
  lemma PassesAgree(d: Dump, t: string, limit: Option<nat>)
    requires ScanOf(d, None, None).Ok?
    ensures var r := ScanOf(d, Some(t), limit);
      && (r.Err? <==> t == "" && RowsOf(d.statements, "") != [])
      && (r.Err? ==> r.error == NoRowList)
      && (r.Ok? && !r.value.exceeded ==> r.value.names == ScanOf(d, None, None).value.names)
      && (r.Ok? ==> r.value.names <= ScanOf(d, None, None).value.names)
      && (r.Ok? && t != "" ==> (r.value.exceeded <==> Over(RowsOf(d.statements, t), limit)))
  {
    if limit.Some? { LimitPrefix(d.statements, t, limit.value); }
  }

  lemma {:induction false} LimitPrefix(sts: seq<Statement>, t: string, limit: nat)
    ensures NamesOf(UpToLimit(sts, t, limit)) <= NamesOf(sts)
  {
    if sts != [] && |RowsOf(sts[..|sts| - 1], t)| > limit { LimitPrefix(sts[..|sts| - 1], t, limit); }
  }

  lemma {:induction false} NamesAreTables(sts: seq<Statement>, t: string)
    ensures t in NamesOf(sts) <==> exists k :: 0 <= k < |sts| && sts[k].table == t
  {
    if sts != [] {
      var n := |sts| - 1;
      NamesAreTables(sts[..n], t);
    }
  }

  /** The resolved table is one the dump has statements for. */
  lemma ResolvedTableIsThere(d: Dump, sqlTable: Option<string>)
    requires Resolve(NamesOf(d.statements), sqlTable).Ok?
    ensures var t := Resolve(NamesOf(d.statements), sqlTable).value;
      exists k :: 0 <= k < |d.statements| && d.statements[k].table == t
  {
    var t := Resolve(NamesOf(d.statements), sqlTable).value;
    assert t in NamesOf(d.statements);
    NamesAreTables(d.statements, t);
  }
}
