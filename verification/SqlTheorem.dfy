/** Extracting a table from a printed dump returns the table's rows. */
module SqlTheorem {
  import opened Wrappers
  import opened Sequences
  import opened Limits
  import opened StagedRows
  import opened Text
  import opened SqlDump
  import opened SqlPrinter
  import opened SqlRoundTrip
  import opened SqlScan

  /** The rows a list of statements holds for table `t`, in order. */
  function PrintedRows(sts: seq<PrintedStatement>, t: string): seq<RawRow> {
    if sts == [] then []
    else
      var st := sts[0];
      (if st.table.table.name == t && st.columns.Some?
       then seq(|st.tuples|, i requires 0 <= i < |st.tuples| =>
                  RowOf(ColumnNames(st.columns.value), TupleCells(st.tuples[i].values)))
       else [])
      + PrintedRows(sts[1..], t)
  }

  lemma LastColumn(columns: seq<string>, less: seq<string>, last: string)
    requires columns == less + [last]
    ensures (set c | c in columns && c != PROTO)
         == (set c | c in less && c != PROTO) + (if last == PROTO then {} else {last})
  {
  }

  /** Position `k` is the last with its column name. */
  ghost predicate LastOfName(columns: seq<string>, k: nat) {
    k < |columns| && forall j :: k < j < |columns| ==> columns[j] != columns[k]
  }

  /** A row is the obvious map: each column its cell, null where the tuple is short, and
      the last of several columns with one name. Only a column with the name of the
      prototype is lost. */
  lemma {:induction false} RowIsByColumn(columns: seq<string>, values: seq<Cell>)
    ensures var r := RowOf(columns, values);
      && r.Keys == (set c | c in columns && c != PROTO)
      && forall k: nat :: LastOfName(columns, k) && columns[k] != PROTO ==>
           columns[k] in r && r[columns[k]] == if k < |values| then values[k] else Null
  {
    if columns != [] {
      var n := |columns| - 1;
      var less := RowOf(columns[..n], values);
      RowIsByColumn(columns[..n], values);
      assert RowOf(columns, values) == if columns[n] == PROTO then less else less[columns[n] := CellAt(values, n)];
      forall k: nat | k < n && LastOfName(columns, k)
        ensures LastOfName(columns[..n], k) && columns[..n][k] == columns[k] != columns[n]
      {
      }
      LastColumn(columns, columns[..n], columns[n]);
    }
  }

  function RowsIn(st: Statement, t: string): seq<RawRow> {
    if st.table == t && HasColumns(st) then RowsOfTuples(st.columns.value, st.tuples) else []
  }

  lemma SnocRows(sts: seq<Statement>, st: Statement, t: string)
    ensures RowsOf(sts + [st], t) == RowsOf(sts, t) + RowsIn(st, t)
  {
    assert (sts + [st])[..|sts + [st]| - 1] == sts;
  }

  lemma SnocConcat(a: seq<Statement>, b: seq<Statement>, st: Statement, t: string)
    requires RowsOf(a + b, t) == RowsOf(a, t) + RowsOf(b, t)
    ensures RowsOf(a + b + [st], t) == RowsOf(a, t) + RowsOf(b + [st], t)
  {
    SnocRows(a + b, st, t);
    SnocRows(b, st, t);
    ConcatAssoc(RowsOf(a, t), RowsOf(b, t), RowsIn(st, t));
  }

  lemma {:induction false} RowsOfConcat(a: seq<Statement>, b: seq<Statement>, t: string)
    ensures RowsOf(a + b, t) == RowsOf(a, t) + RowsOf(b, t)
  {
    if b == [] {
      assert a + b == a;
    } else {
      var n := |b| - 1;
      RowsOfConcat(a, b[..n], t);
      assert a + b == a + b[..n] + [b[n]] && b == b[..n] + [b[n]];
      SnocConcat(a, b[..n], b[n], t);
    }
  }

  lemma FirstStatementRows(m: Statement, rest: seq<Statement>, t: string)
    ensures RowsOf([m] + rest, t) == RowsIn(m, t) + RowsOf(rest, t)
  {
    RowsOfConcat([m], rest, t);
    SnocRows([], m, t);
    assert [] + [m] == [m];
    ConcatEmpty(RowsIn(m, t));
  }

  lemma FirstPrinted(st: PrintedStatement, t: string)
    requires StatementOk(st)
    ensures RowsIn(StatementMeaning(st), t) ==
      if st.table.table.name == t && st.columns.Some?
      then seq(|st.tuples|, i requires 0 <= i < |st.tuples| =>
                 RowOf(ColumnNames(st.columns.value), TupleCells(st.tuples[i].values)))
      else []
  {
  }

  lemma {:induction false} MeaningRows(sts: seq<PrintedStatement>, t: string)
    requires forall st :: st in sts ==> StatementOk(st)
    ensures RowsOf(DumpMeaning(sts), t) == PrintedRows(sts, t)
    decreases sts
  {
    if sts == [] {
      assert DumpMeaning(sts) == [];
    } else {
      assert sts[0] in sts;
      DumpMeaningStep(sts);
      FirstStatementRows(StatementMeaning(sts[0]), DumpMeaning(sts[1..]), t);
      FirstPrinted(sts[0], t);
      MeaningRows(sts[1..], t);
    }
  }

  lemma {:induction false} ColumnsEverywhere(sts: seq<Statement>, t: string)
    requires exists k :: 0 <= k < |sts| && sts[k].table == t
    requires forall k :: 0 <= k < |sts| && sts[k].table == t ==> HasColumns(sts[k])
    ensures LastHadColumns(sts, t)
  {
    var n := |sts| - 1;
    if sts[n].table != t { ColumnsEverywhere(sts[..n], t); }
  }

  /** The printed names resolve to themselves. */
  lemma PlainTableName(sts: seq<PrintedStatement>, k: nat)
    requires k < |sts| && StatementOk(sts[k])
    ensures var t := sts[k].table.table.name; t != [] && UnquoteIdent(t) == t
  {
    var t := sts[k].table.table.name;
    UnquotePadded([], Ident(NoQuote, t), []);
    assert [] + t + [] == t;
  }

  /** For any dump whose statements for `t` name their columns, whatever the other
      tables do and whatever the strings contain: all rows of `t`, or the verdict
      that there are more than the limit. */
  lemma DumpRoundTrip(sts: seq<PrintedStatement>, tail: string, k: nat, limit: Option<nat>)
    requires (forall st :: st in sts ==> StatementOk(st)) && NoInsert(tail) && k < |sts|
    requires forall st :: st in sts && st.table.table.name == sts[k].table.table.name ==> st.columns.Some?
    ensures var t := sts[k].table.table.name;
      ExtractOf(ReadDump(DumpText(sts, tail)), Some(t), limit)
      == if Over(PrintedRows(sts, t), limit) then Ok(Extract(t, Some([]), true))
         else Ok(Extract(t, Some(PrintedRows(sts, t)), false))
  {
    var t := sts[k].table.table.name;
    var ms := DumpMeaning(sts);
    assert sts[k] in sts;
    ReadPrintedDump(sts, tail);
    MeaningRows(sts, t);
    PlainTableName(sts, k);
    assert ms[k].table == t;
    NamesAreTables(ms, t);
    forall j | 0 <= j < |ms| && ms[j].table == t ensures HasColumns(ms[j]) {
      assert sts[j] in sts;
      assert |ColumnNames(sts[j].columns.value)| > 0;
    }
    ColumnsEverywhere(ms, t);
  }

  /** A dump with one table needs no table to be named. */
  lemma SingleTableRoundTrip(sts: seq<PrintedStatement>, tail: string)
    requires (forall st :: st in sts ==> StatementOk(st) && st.columns.Some?) && NoInsert(tail) && sts != []
    requires forall st :: st in sts ==> st.table.table.name == sts[0].table.table.name
    ensures var t := sts[0].table.table.name;
      ExtractOf(ReadDump(DumpText(sts, tail)), None, None) == Ok(Extract(t, Some(PrintedRows(sts, t)), false))
  {
    var t := sts[0].table.table.name;
    var ms := DumpMeaning(sts);
    DumpRoundTrip(sts, tail, 0, None);
    ReadPrintedDump(sts, tail);
    PlainTableName(sts, 0);
    forall j | 0 <= j < |ms| ensures ms[j].table == t {
      assert sts[j] in sts;
    }
    OnlyName(ms, t);
    assert NamesOf(ms) == [t];
  }

  /** A dump whose one table has the empty name. */
  const EMPTY_NAME_DUMP: string := "INSERT" + (" " + ("INTO" + (" " + ("``" + (" " + ("(" + ("a" + (")" +
    (" " + ("VALUES" + " (1);"))))))))))

  lemma EmptyNameUnquotes()
    ensures UnquoteIdent("``") == ""
  {
    TrimSpaces([], "``", []);
    assert [] + "``" + [] == "``";
    LastSegmentOnly("``");
  }

  lemma EmptyNameMatches(rest: string)
    ensures var text := "INSERT" + (" " + ("INTO" + (" " + ("``" + (" " + ("(" + ("a" + (")" +
              (" " + ("VALUES" + rest))))))))));
      FindPrefix(text) == Some(Prefix("``", Some("a"), rest))
  {
    var tail := " " + ("VALUES" + rest);
    KeywordPrinted("VALUES", "VALUES", rest);
    SpacesPrinted(" ", "VALUES" + rest);
    MatchTableWith("``", " ", "a", tail);
    PrefixChain("INSERT", " ", "INTO", " ", "``" + (" " + ("(" + ("a" + (")" + tail)))));
  }

  lemma OneTuple()
    ensures ReadTuples(" (1);") == Tuples([[Num("1")]], [], None)
  {
    var one := PrintedTuple(" ", [Bare([], "1", [])]);
    assert LiteralText(one.values[0], ");") == "1);";
    assert ";" + [] == ";" && ")" + ";" == ");";
    assert TuplesText([one], []) == " (1);";
    ReadTuplesText([one], []);
    NumberReads("1", false, "1", Option.None);
    assert LiteralCell(one.values[0]) == Num("1");
    assert TupleCells(one.values) == [Num("1")];
    assert TuplesCells([one]) == [[Num("1")]];
  }

  const EMPTY_NAME: Statement := Statement("", Some(["a"]), [[Num("1")]])

  lemma LastStatementReads(x: string, p: Prefix, tuples: seq<seq<Cell>>)
    requires FindPrefix(x) == Some(p) && ReadTuples(p.rest) == Tuples(tuples, [], None)
    ensures ReadDump(x) == Dump([StatementOf(p, tuples)], None)
  {
    assert ReadDump([]) == Dump([], None);
  }

  lemma EmptyNameReads()
    ensures ReadDump(EMPTY_NAME_DUMP) == Dump([EMPTY_NAME], None)
  {
    var p := Prefix("``", Some("a"), " (1);");
    EmptyNameMatches(" (1);");
    OneTuple();
    LastStatementReads(EMPTY_NAME_DUMP, p, [[Num("1")]]);
    EmptyNameStatement(p);
  }

  lemma EmptyNameStatement(p: Prefix)
    requires p.table == "``" && p.columns == Some("a")
    ensures StatementOf(p, [[Num("1")]]) == EMPTY_NAME
  {
    EmptyNameUnquotes();
    var c := PrintedColumn([], Ident(NoQuote, "a"), []);
    assert ColumnText(c) == "a" && ColumnsText([c]) == "a";
    SplitPrinted([c]);
    assert ColumnNames([c]) == ["a"];
  }

  /** The empty table name passes the first pass and breaks the second. */
  lemma EmptyTableNameBreaks()
    ensures ScanOf(ReadDump(EMPTY_NAME_DUMP), None, None).Ok?
    ensures ExtractOf(ReadDump(EMPTY_NAME_DUMP), None, None) == Err(Unreadable(NoRowList))
  {
    EmptyNameReads();
    Snoc([], EMPTY_NAME, "");
    assert [] + [EMPTY_NAME] == [EMPTY_NAME];
    assert |RowsOf([EMPTY_NAME], "")| == 1;
    assert NamesOf([EMPTY_NAME]) == [""];
  }

  /** A dump column with the name of the prototype is lost. */
  lemma PrototypeExample()
    ensures RowOf(["__proto__", "a"], [Num("1"), Num("2")]) == map["a" := Num("2")]
  {
    assert ["__proto__", "a"][..1] == ["__proto__"] && ["__proto__"][..0] == [];
    assert RowOf([], [Num("1"), Num("2")]) == map[];
    assert RowOf(["__proto__"], [Num("1"), Num("2")]) == map[];
  }
}
