/** Reading back what was printed. */
module SqlRoundTrip {
  import opened Wrappers
  import opened StagedRows
  import opened Text
  import opened Sequences
  import opened SqlDump
  import opened SqlPrinter

  // ----------------------------------------------------------------- values

  lemma {:induction false} ReadPieces(ps: seq<Piece>, rest: string)
    requires (forall p :: p in ps ==> PieceOk(p)) && (rest != [] ==> rest[0] != '\'')
    ensures ReadString(PiecesText(ps, "'" + rest)) == Ok((PiecesValue(ps), rest))
    decreases ps
  {
    if ps == [] {
      TailConcat("'", rest);
      ConcatEmpty(rest);
    } else {
      ReadPieces(ps[1..], rest);
      assert PieceOk(ps[0]);
      ReadPiece(ps[0], PiecesText(ps[1..], "'" + rest));
      assert [PieceValue(ps[0])] + PiecesValue(ps[1..]) == PiecesValue(ps);
    }
  }

  lemma ReadPiece(p: Piece, next: string)
    requires PieceOk(p)
    ensures ReadString(PieceText(p, next)) == Before([PieceValue(p)], ReadString(next))
  {
    var s := PieceText(p, next);
    match p
    case Raw(_) => assert s[1..] == next;
    case QuoteQuote => assert s[2..] == next;
    case Escaped(_) => assert s[2..] == next;
  }

  lemma {:induction false} TokenStops(token: string, next: string)
    requires (forall c :: c in token ==> !IsDelimiter(c)) && next != [] && IsDelimiter(next[0])
    ensures TokenOf(token + next) == token
    decreases token
  {
    if token == [] {
      assert token + next == next;
    } else {
      assert (token + next)[1..] == token[1..] + next;
      assert token[0] in token;
      TokenStops(token[1..], next);
    }
  }

  /** A printed value is read to its end, whatever delimiter follows. */
  lemma ReadLiteral(l: Literal, next: string)
    requires LiteralOk(l) && next != [] && IsDelimiter(next[0])
    ensures var s := SkipSpace(LiteralText(l, next));
      && s != [] && s[0] != ')'
      && ReadValue(s).Ok? && ReadValue(s).value.0 == LiteralCell(l) && SkipSpace(ReadValue(s).value.1) == next
  {
    match l
    case Quoted(pre, pieces, post) =>
      var body := PiecesText(pieces, "'" + (post + next));
      SkipSpaces(pre, "'" + body);
      TailConcat("'", body);
      ConcatEmpty(body);
      ReadPieces(pieces, post + next);
      SkipSpaces(post, next);
    case Bare(pre, token, post) => ReadBare(pre, token, post, next);
  }

  lemma BareToken(token: string, post: string, next: string)
    requires AllSpace(post) && (forall c :: c in token ==> !IsDelimiter(c)) && next != [] && IsDelimiter(next[0])
    ensures var s := token + (post + next);
      TokenOf(s) == token + post && |token + post| <= |s| && s[|token + post|..] == next
  {
    ConcatAssoc(token, post, next);
    assert forall c :: c in token + post ==> !IsDelimiter(c);
    TokenStops(token + post, next);
    DropConcat(token + post, next);
  }

  lemma BareCell(pre: string, token: string, post: string)
    requires LiteralOk(Bare(pre, token, post))
    ensures InterpretUnquoted(token + post) == LiteralCell(Bare(pre, token, post))
  {
    TrimSpaces([], token, post);
    ConcatEmpty(token);
  }

  lemma ReadBare(pre: string, token: string, post: string, next: string)
    requires LiteralOk(Bare(pre, token, post)) && next != [] && IsDelimiter(next[0])
    ensures var s := SkipSpace(pre + (token + (post + next)));
      && s != [] && s[0] != ')'
      && ReadValue(s) == Ok((LiteralCell(Bare(pre, token, post)), next)) && SkipSpace(next) == next
  {
    assert token[0] in token;
    SkipSpaces(pre, token + (post + next));
    BareToken(token, post, next);
    BareCell(pre, token, post);
  }

  lemma ReadTupleStep(l: Literal, next: string)
    requires LiteralOk(l) && next != [] && IsDelimiter(next[0])
    ensures ReadTuple(LiteralText(l, next))
         == if next[0] == ',' then Cons(LiteralCell(l), ReadTuple(next[1..])) else Ok(([LiteralCell(l)], next[1..]))
  {
    ReadLiteral(l, next);
  }

  lemma {:induction false} ReadTupleText(ls: TupleLiteral, rest: string)
    requires forall l :: l in ls ==> LiteralOk(l)
    ensures ReadTuple(TupleText(ls, rest)) == Ok((TupleCells(ls), rest))
    decreases ls
  {
    if ls == [] {
      TailConcat(")", rest);
      ConcatEmpty(rest);
      assert TupleCells(ls) == [];
    } else if |ls| == 1 {
      assert ls[0] in ls;
      ReadTupleStep(ls[0], ")" + rest);
      TailConcat(")", rest);
      ConcatEmpty(rest);
      assert TupleCells(ls) == [LiteralCell(ls[0])];
    } else {
      ReadTupleMore(ls, rest);
      ReadTupleText(ls[1..], rest);
      assert TupleCells(ls) == [LiteralCell(ls[0])] + TupleCells(ls[1..]);
    }
  }

  lemma ReadTupleMore(ls: TupleLiteral, rest: string)
    requires |ls| > 1 && forall l :: l in ls ==> LiteralOk(l)
    ensures ReadTuple(TupleText(ls, rest)) == Cons(LiteralCell(ls[0]), ReadTuple(TupleText(ls[1..], rest)))
  {
    assert ls[0] in ls;
    var more := TupleText(ls[1..], rest);
    ReadTupleStep(ls[0], "," + more);
    TailConcat(",", more);
    ConcatEmpty(more);
  }

  lemma {:induction false} SkipAll(w: string, s: string)
    requires AllSeparators(w) && (s != [] ==> !IsSpace(s[0]) && s[0] != ',')
    ensures SkipSeparators(w + s) == s
    decreases w
  {
    if w == [] {
      assert w + s == s;
    } else {
      assert (w + s)[1..] == w[1..] + s;
      SkipAll(w[1..], s);
    }
  }

  lemma ReadTuplesEnd(rest: string)
    ensures ReadTuples(";" + rest) == Tuples([], rest, None)
  {
    TailConcat(";", rest);
    ConcatEmpty(rest);
  }

  lemma ReadTuplesStep(separator: string, body: string, values: seq<Cell>, more: string)
    requires AllSeparators(separator) && ReadTuple(body) == Ok((values, more))
    ensures var t := ReadTuples(more);
      ReadTuples(separator + ("(" + body)) == t.(values := [values] + t.values)
  {
    SkipAll(separator, "(" + body);
    TailConcat("(", body);
    ConcatEmpty(body);
  }

  lemma {:induction false} ReadTuplesText(ts: seq<PrintedTuple>, rest: string)
    requires forall t :: t in ts ==> TupleOk(t)
    ensures ReadTuples(TuplesText(ts, rest)) == Tuples(TuplesCells(ts), rest, None)
    decreases ts
  {
    if ts == [] {
      ReadTuplesEnd(rest);
      assert TuplesCells(ts) == [];
    } else {
      assert ts[0] in ts;
      var more := TuplesText(ts[1..], rest);
      ReadTuplesText(ts[1..], rest);
      ReadTupleText(ts[0].values, more);
      ReadTuplesStep(ts[0].separator, TupleText(ts[0].values, more), TupleCells(ts[0].values), more);
      assert TuplesCells(ts) == [TupleCells(ts[0].values)] + TuplesCells(ts[1..]);
    }
  }

  // ------------------------------------------------------------ identifiers

  lemma {:induction false} UndoubleNothing(s: string, c: char)
    requires c !in s
    ensures Undouble(s, c) == s
  {
    if s != [] {
      assert s == [s[0]] + s[1..];
      UndoubleNothing(s[1..], c);
    }
  }

  lemma {:induction false} LastSegmentAfterDot(s: string, t: string)
    requires '.' !in t
    ensures LastSegment(s + ("." + t)) == t
  {
    var all := s + ("." + t);
    if t == [] {
      assert all[|all| - 1] == '.';
    } else {
      var n := |t| - 1;
      assert all[..|all| - 1] == s + ("." + t[..n]);
      LastSegmentAfterDot(s, t[..n]);
      SplitLast(t);
    }
  }

  lemma {:induction false} LastSegmentOnly(t: string)
    requires '.' !in t
    ensures LastSegment(t) == t
  {
    if t != [] { LastSegmentOnly(t[..|t| - 1]); }
  }

  /** Characters that a printed identifier can contain. */
  predicate IdentChar(c: char) {
    !IsSpace(c) && c !in ".'(),"
  }

  lemma IdentChars(i: Ident)
    requires IdentOk(i)
    ensures IdentText(i) != [] && forall c :: c in IdentText(i) ==> IdentChar(c)
  {
  }

  lemma UnwrapIdent(i: Ident)
    requires IdentOk(i)
    ensures Undouble(Undouble(Unwrap(IdentText(i)), '`'), '"') == i.name
  {
    assert i.name[0] in i.name;
    assert Unwrap(IdentText(i)) == i.name;
    UndoubleNothing(i.name, '`');
    UndoubleNothing(i.name, '"');
  }

  /** Trimming, and taking the last segment, leave a printed identifier alone. */
  lemma IdentStands(i: Ident)
    requires IdentOk(i)
    ensures var t := IdentText(i); t != [] && Trimmed(t) && Trim(t) == t && LastSegment(t) == t && '.' !in t
  {
    var t := IdentText(i);
    IdentChars(i);
    assert t[0] in t && t[|t| - 1] in t;
    TrimSpaces([], t, []);
    ConcatEmpty(t);
    LastSegmentOnly(t);
  }

  lemma UnquotePadded(pre: string, i: Ident, post: string)
    requires AllSpace(pre) && AllSpace(post) && IdentOk(i)
    ensures UnquoteIdent(pre + IdentText(i) + post) == i.name
  {
    IdentStands(i);
    TrimSpaces(pre, IdentText(i), post);
    UnwrapIdent(i);
  }

  lemma UnquoteTable(r: TableRef)
    requires TableOk(r)
    ensures UnquoteIdent(TableText(r)) == r.table.name
  {
    var t := IdentText(r.table);
    IdentStands(r.table);
    UnwrapIdent(r.table);
    if r.schema.Some? {
      var s := IdentText(r.schema.value);
      IdentStands(r.schema.value);
      TrimSpaces([], s + ("." + t), []);
      ConcatEmpty(s + ("." + t));
      LastSegmentAfterDot(s, t);
    }
  }

  lemma {:induction false} UpToStops(s: string, c: char, next: string)
    requires c !in s && (next != [] ==> next[0] == c)
    ensures UpTo(s + next, c) == s
    decreases s
  {
    if s == [] {
      assert s + next == next;
    } else {
      assert (s + next)[1..] == s[1..] + next;
      assert s[0] in s;
      UpToStops(s[1..], c, next);
    }
  }

  lemma ColumnChars(c: PrintedColumn)
    requires ColumnOk(c)
    ensures forall x :: x in ColumnText(c) ==> x != ',' && x != ')'
  {
    IdentChars(c.ident);
  }

  lemma PiecesMore(first: string, more: string)
    requires ',' !in first
    ensures Pieces(first + ("," + more)) == [first] + Pieces(more)
  {
    var s := first + ("," + more);
    UpToStops(first, ',', "," + more);
    DropConcat(first + ",", more);
    ConcatAssoc(first, ",", more);
    assert |first| < |s| && s[|first| + 1..] == more;
  }

  lemma PiecesOnly(first: string)
    requires ',' !in first
    ensures Pieces(first) == [first]
  {
    UpToStops(first, ',', []);
    ConcatEmpty(first);
  }

  function ColumnTexts(cs: seq<PrintedColumn>): seq<string> {
    if cs == [] then [] else [ColumnText(cs[0])] + ColumnTexts(cs[1..])
  }

  lemma {:induction false} ColumnsClosed(cs: seq<PrintedColumn>)
    requires cs != [] && forall c :: c in cs ==> ColumnOk(c)
    ensures ')' !in ColumnsText(cs)
    decreases cs
  {
    assert cs[0] in cs;
    ColumnChars(cs[0]);
    if |cs| > 1 { ColumnsClosed(cs[1..]); }
  }

  lemma {:induction false} PiecesPrinted(cs: seq<PrintedColumn>)
    requires cs != [] && forall c :: c in cs ==> ColumnOk(c)
    ensures Pieces(ColumnsText(cs)) == ColumnTexts(cs)
    decreases cs
  {
    assert cs[0] in cs;
    ColumnChars(cs[0]);
    if |cs| == 1 {
      PiecesOnly(ColumnText(cs[0]));
      assert cs[1..] == [];
    } else {
      PiecesPrinted(cs[1..]);
      PiecesMore(ColumnText(cs[0]), ColumnsText(cs[1..]));
    }
  }

  lemma {:induction false} NamesPrinted(cs: seq<PrintedColumn>)
    requires forall c :: c in cs ==> ColumnOk(c)
    ensures Names(ColumnTexts(cs)) == ColumnNames(cs)
    decreases cs
  {
    if cs == [] {
      assert ColumnNames(cs) == [];
    } else {
      assert cs[0] in cs;
      UnquotePadded(cs[0].pre, cs[0].ident, cs[0].post);
      NamesPrinted(cs[1..]);
      TailConcat([ColumnText(cs[0])], ColumnTexts(cs[1..]));
      ConcatEmpty(ColumnTexts(cs[1..]));
      assert ColumnNames(cs) == [cs[0].ident.name] + ColumnNames(cs[1..]);
    }
  }

  /** A printed column list is split back into its names. */
  lemma SplitPrinted(cs: seq<PrintedColumn>)
    requires cs != [] && forall c :: c in cs ==> ColumnOk(c)
    ensures SplitColumns(ColumnsText(cs)) == ColumnNames(cs)
  {
    PiecesPrinted(cs);
    NamesPrinted(cs);
  }

  // ------------------------------------------------------------- statements

  lemma KeywordPrinted(word: string, k: string, rest: string)
    requires EqualFold(word, k)
    ensures Keyword(word + rest, k) == Some(rest)
  {
    assert (word + rest)[..|k|] == word && (word + rest)[|k|..] == rest;
  }

  lemma SpacesPrinted(w: string, rest: string)
    requires SomeSpace(w) && (rest != [] ==> !IsSpace(rest[0]))
    ensures Spaces(w + rest) == Some(rest)
  {
    assert (w + rest)[1..] == w[1..] + rest;
    SkipSpaces(w[1..], rest);
  }

  lemma {:induction false} TableStops(t: string, next: string)
    requires (forall c :: c in t ==> !IsSpace(c) && c != '(') && next != [] && (IsSpace(next[0]) || next[0] == '(')
    ensures TableToken(t + next) == t
    decreases t
  {
    if t == [] {
      assert t + next == next;
    } else {
      assert (t + next)[1..] == t[1..] + next;
      assert t[0] in t;
      TableStops(t[1..], next);
    }
  }

  lemma TableChars(r: TableRef)
    requires TableOk(r)
    ensures TableText(r) != [] && forall c :: c in TableText(r) ==> !IsSpace(c) && c != '('
  {
    IdentChars(r.table);
    if r.schema.Some? { IdentChars(r.schema.value); }
  }

  lemma ValuesPrinted(st: PrintedStatement, table: string, columns: Option<string>, rest: string)
    requires StatementOk(st)
    ensures ValuesAfter(st.w4 + (st.values + rest), table, columns) == Some(Prefix(table, columns, rest))
  {
    assert Upper(st.values[0]) == 'V';
    SpacesPrinted(st.w4, st.values + rest);
    KeywordPrinted(st.values, "VALUES", rest);
  }

  /** The column list as the prefix keeps it. */
  function RawColumns(st: PrintedStatement): Option<string>
    requires StatementOk(st)
  {
    if st.columns.Some? then Some(ColumnsText(st.columns.value)) else None
  }

  predicate TokenChars(t: string) {
    t != [] && forall c :: c in t ==> !IsSpace(c) && c != '('
  }

  lemma MatchTableWith(t: string, w: string, cols: string, tail: string)
    requires TokenChars(t) && AllSpace(w) && ')' !in cols
    ensures MatchTable(t + (w + ("(" + (cols + (")" + tail))))) == ValuesAfter(tail, t, Some(cols))
  {
    var list := "(" + (cols + (")" + tail));
    var s := t + (w + list);
    TableStops(t, w + list);
    assert s[|t|..] == w + list;
    SkipSpaces(w, list);
    assert list[1..] == cols + (")" + tail);
    UpToStops(cols, ')', ")" + tail);
    assert list[|cols| + 2..] == tail;
  }

  lemma MatchTableWithout(t: string, w: string, rest: string)
    requires TokenChars(t) && SomeSpace(w) && rest != [] && !IsSpace(rest[0]) && rest[0] != '('
    ensures MatchTable(t + (w + rest)) == ValuesAfter(w + rest, t, None)
  {
    TableStops(t, w + rest);
    assert (t + (w + rest))[|t|..] == w + rest;
    SkipSpaces(w, rest);
  }

  lemma MatchPrintedTable(st: PrintedStatement, next: string)
    requires StatementOk(st)
    ensures MatchTable(TablePart(st, next))
         == Some(Prefix(TableText(st.table), RawColumns(st), TuplesText(st.tuples, next)))
  {
    var t := TableText(st.table);
    var rest := TuplesText(st.tuples, next);
    TableChars(st.table);
    ValuesPrinted(st, t, RawColumns(st), rest);
    if st.columns.None? {
      assert Upper(st.values[0]) == 'V';
      MatchTableWithout(t, st.w4, st.values + rest);
    } else {
      ColumnsClosed(st.columns.value);
      MatchTableWith(t, st.w3, ColumnsText(st.columns.value), st.w4 + (st.values + rest));
    }
  }

  lemma PrefixChain(insert: string, w1: string, into: string, w2: string, s4: string)
    requires EqualFold(insert, "INSERT") && EqualFold(into, "INTO") && SomeSpace(w1) && SomeSpace(w2)
    requires s4 != [] && !IsSpace(s4[0])
    ensures MatchPrefix(insert + (w1 + (into + (w2 + s4)))) == MatchTable(s4)
  {
    var s3 := w2 + s4;
    var s2 := into + s3;
    KeywordPrinted(insert, "INSERT", w1 + s2);
    assert Upper(s2[0]) == 'I';
    SpacesPrinted(w1, s2);
    KeywordPrinted(into, "INTO", s3);
    SpacesPrinted(w2, s4);
  }

  /** What stands behind the gap. */
  function BodyText(st: PrintedStatement, next: string): string
    requires StatementOk(st)
  {
    st.insert + (st.w1 + (st.into + (st.w2 + TablePart(st, next))))
  }

  lemma MatchPrinted(st: PrintedStatement, next: string)
    requires StatementOk(st)
    ensures MatchPrefix(BodyText(st, next))
         == Some(Prefix(TableText(st.table), RawColumns(st), TuplesText(st.tuples, next)))
  {
    var s4 := TablePart(st, next);
    TableChars(st.table);
    assert s4[0] == TableText(st.table)[0] && s4[0] in TableText(st.table);
    PrefixChain(st.insert, st.w1, st.into, st.w2, s4);
    MatchPrintedTable(st, next);
  }

  lemma OnlyTheFirstIsI(k: nat)
    requires 0 < k < 6
    ensures "INSERT"[k] != 'I'
  {
    assert k == 1 || k == 2 || k == 3 || k == 4 || k == 5;
  }

  /** The keyword cannot straddle the end of a gap: it does not overlap itself. */
  lemma GapDoesNotMatch(gap: string, s: string)
    requires gap != [] && NoInsert(gap) && (s != [] ==> Upper(s[0]) == 'I')
    ensures MatchPrefix(gap + s).None?
  {
    var text := gap + s;
    if |gap| >= 6 {
      assert gap[0..] == gap && Keyword(gap[0..], "INSERT").None?;
      assert text[..6] == gap[..6];
    } else if |text| >= 6 {
      assert text[..6][|gap|] == s[0];
      OnlyTheFirstIsI(|gap|);
    }
  }

  lemma {:induction false} FindAfterGap(gap: string, s: string)
    requires NoInsert(gap) && (s != [] ==> Upper(s[0]) == 'I')
    ensures FindPrefix(gap + s) == FindPrefix(s)
    decreases gap
  {
    if gap == [] {
      assert gap + s == s;
    } else {
      GapDoesNotMatch(gap, s);
      assert (gap + s)[1..] == gap[1..] + s;
      forall k | 0 <= k <= |gap[1..]| ensures Keyword(gap[1..][k..], "INSERT").None? {
        assert gap[1..][k..] == gap[k + 1..];
      }
      FindAfterGap(gap[1..], s);
    }
  }

  /** The whole dump is read back, statement by statement. */
  lemma {:induction false} ReadPrintedDump(sts: seq<PrintedStatement>, tail: string)
    requires (forall st :: st in sts ==> StatementOk(st)) && NoInsert(tail)
    ensures ReadDump(DumpText(sts, tail)) == Dump(DumpMeaning(sts), None)
    decreases sts
  {
    if sts == [] {
      FindAfterGap(tail, []);
      assert tail + [] == tail;
      assert DumpMeaning(sts) == [];
    } else {
      assert sts[0] in sts;
      ReadPrintedDump(sts[1..], tail);
      ReadPrintedStatement(sts[0], DumpText(sts[1..], tail));
      DumpMeaningStep(sts);
    }
  }

  lemma DumpMeaningStep(sts: seq<PrintedStatement>)
    requires sts != []
    ensures DumpMeaning(sts) == [StatementMeaning(sts[0])] + DumpMeaning(sts[1..])
  {
  }

  lemma ReadDumpStep(x: string, p: Prefix, tuples: seq<seq<Cell>>, more: string)
    requires FindPrefix(x) == Some(p) && ReadTuples(p.rest) == Tuples(tuples, more, None)
    ensures var d := ReadDump(more);
      ReadDump(x) == d.(statements := [StatementOf(p, tuples)] + d.statements)
  {
  }

  lemma FindPrinted(st: PrintedStatement, next: string)
    requires StatementOk(st)
    ensures FindPrefix(StatementText(st, next))
         == Some(Prefix(TableText(st.table), RawColumns(st), TuplesText(st.tuples, next)))
  {
    var s := BodyText(st, next);
    assert s != [] && s[0] == st.insert[0] && Upper(s[0]) == 'I';
    FindAfterGap(st.gap, s);
    MatchPrinted(st, next);
  }

  lemma PrintedMeaning(st: PrintedStatement, p: Prefix)
    requires StatementOk(st) && p.table == TableText(st.table) && p.columns == RawColumns(st)
    ensures StatementOf(p, TuplesCells(st.tuples)) == StatementMeaning(st)
  {
    UnquoteTable(st.table);
    if st.columns.Some? { SplitPrinted(st.columns.value); }
  }

  lemma ReadPrintedStatement(st: PrintedStatement, more: string)
    requires StatementOk(st)
    ensures var d := ReadDump(more);
      ReadDump(StatementText(st, more)) == d.(statements := [StatementMeaning(st)] + d.statements)
  {
    var p := Prefix(TableText(st.table), RawColumns(st), TuplesText(st.tuples, more));
    FindPrinted(st, more);
    ReadTuplesText(st.tuples, more);
    ReadDumpStep(StatementText(st, more), p, TuplesCells(st.tuples), more);
    PrintedMeaning(st, p);
  }

  // ---------------------------------------------------------------- numbers

  function NumberText(negative: bool, whole: string, fraction: Option<string>): string {
    (if negative then "-" else "") + (whole + (if fraction.Some? then "." + fraction.value else ""))
  }

  ghost predicate NumberShape(t: string, negative: bool, whole: string, fraction: Option<string>) {
    && AllDigits(whole) && (fraction.Some? ==> AllDigits(fraction.value))
    && t == NumberText(negative, whole, fraction)
  }

  /** A token is numeric exactly when it has the shape of a signed decimal. */
  lemma NumberGrammar(t: string)
    ensures IsNumber(t) <==> exists negative, whole, fraction :: NumberShape(t, negative, whole, fraction)
  {
    if IsNumber(t) {
      var negative, whole, fraction := NumberParts(t);
    }
    forall negative, whole, fraction | NumberShape(t, negative, whole, fraction) ensures IsNumber(t) {
      NumberReads(t, negative, whole, fraction);
    }
  }

  lemma NumberParts(t: string) returns (negative: bool, whole: string, fraction: Option<string>)
    requires IsNumber(t)
    ensures NumberShape(t, negative, whole, fraction)
  {
    negative := t != [] && t[0] == '-';
    var u := if negative then t[1..] else t;
    whole := UpTo(u, '.');
    UpToIsPrefix(u, '.');
    if |whole| < |u| {
      fraction := Option.Some(u[|whole| + 1..]);
      assert u == whole + ("." + fraction.value);
    } else {
      fraction := Option.None;
      assert u == whole + "";
    }
    assert t == (if negative then "-" else "") + u;
  }

  lemma {:induction false} UpToIsPrefix(s: string, c: char)
    ensures var p := UpTo(s, c);
      p == s[..|p|] && (|p| < |s| ==> s[|p|] == c)
  {
    if s != [] && s[0] != c { UpToIsPrefix(s[1..], c); }
  }

  lemma NumberReads(t: string, negative: bool, whole: string, fraction: Option<string>)
    requires NumberShape(t, negative, whole, fraction)
    ensures IsNumber(t)
  {
    var next := if fraction.Some? then "." + fraction.value else "";
    var u := whole + next;
    assert t == (if negative then "-" else "") + u;
    assert !negative ==> t == u;
    assert '0' <= whole[0] <= '9';
    assert (if t != [] && t[0] == '-' then t[1..] else t) == u;
    assert '.' !in whole;
    UpToStops(whole, '.', next);
    if fraction.Some? { assert u[|whole| + 1..] == fraction.value; }
  }
}
