/** Printing a dump, with every freedom the two common dump tools use: quoting and
    casing, white space, text between statements, and for each character of a
    string the choice between doubled quotes and backslash escapes. Each printer
    puts its text ahead of what comes next. */
module SqlPrinter {
  import opened Wrappers
  import opened StagedRows
  import opened Text
  import opened SqlDump

  // ----------------------------------------------------------------- values

  datatype Piece = Raw(c: char) | QuoteQuote | Escaped(c: char)

  predicate PieceOk(p: Piece) {
    p.Raw? ==> p.c != '\'' && p.c != '\\'
  }

  function PieceText(p: Piece, next: string): string {
    match p
    case Raw(c) => [c] + next
    case QuoteQuote => "''" + next
    case Escaped(c) => ['\\', c] + next
  }

  function PieceValue(p: Piece): char {
    match p
    case Raw(c) => c
    case QuoteQuote => '\''
    case Escaped(c) => Unescape(c)
  }

  function PiecesText(ps: seq<Piece>, next: string): string {
    if ps == [] then next else PieceText(ps[0], PiecesText(ps[1..], next))
  }

  function PiecesValue(ps: seq<Piece>): string {
    seq(|ps|, i requires 0 <= i < |ps| => PieceValue(ps[i]))
  }

  /** The plainest encoding of a string; there are many others. */
  function Encode(v: string): seq<Piece> {
    seq(|v|, i requires 0 <= i < |v| =>
      if v[i] == '\'' then QuoteQuote else if v[i] == '\\' then Escaped('\\') else Raw(v[i]))
  }

  /** No string is beyond the printer. */
  lemma EveryStringPrints(v: string)
    ensures PiecesValue(Encode(v)) == v && forall p :: p in Encode(v) ==> PieceOk(p)
  {
  }

  /** A value with white space around it: a string, or a bare token. */
  datatype Literal =
    | Quoted(pre: string, pieces: seq<Piece>, post: string)
    | Bare(pre: string, token: string, post: string)

  predicate LiteralOk(l: Literal) {
    && AllSpace(l.pre) && AllSpace(l.post)
    && match l
       case Quoted(_, pieces, _) => forall p :: p in pieces ==> PieceOk(p)
       case Bare(_, token, _) =>
         token != [] && Trimmed(token) && token[0] != '\'' && forall c :: c in token ==> c != ',' && c != ')'
  }

  function LiteralText(l: Literal, next: string): string {
    match l
    case Quoted(pre, pieces, post) => pre + ("'" + PiecesText(pieces, "'" + (post + next)))
    case Bare(pre, token, post) => pre + (token + (post + next))
  }

  function LiteralCell(l: Literal): Cell {
    match l
    case Quoted(_, pieces, _) => Text(PiecesValue(pieces))
    case Bare(_, token, _) =>
      if EqualFold(token, "NULL") then Null else if IsNumber(token) then Num(token) else Text(token)
  }

  type TupleLiteral = seq<Literal>

  /** What follows the opening parenthesis. */
  function TupleText(ls: TupleLiteral, next: string): string {
    if ls == [] then ")" + next
    else LiteralText(ls[0], if |ls| == 1 then ")" + next else "," + TupleText(ls[1..], next))
  }

  function TupleCells(ls: TupleLiteral): seq<Cell> {
    seq(|ls|, i requires 0 <= i < |ls| => LiteralCell(ls[i]))
  }

  /** A tuple and the commas and white space ahead of it. */
  datatype PrintedTuple = PrintedTuple(separator: string, values: TupleLiteral)

  predicate AllSeparators(s: string) {
    forall i :: 0 <= i < |s| ==> IsSpace(s[i]) || s[i] == ','
  }

  predicate TupleOk(t: PrintedTuple) {
    AllSeparators(t.separator) && forall l :: l in t.values ==> LiteralOk(l)
  }

  /** The tuples of a statement, up to and with its semicolon. */
  function TuplesText(ts: seq<PrintedTuple>, next: string): string {
    if ts == [] then ";" + next
    else ts[0].separator + ("(" + TupleText(ts[0].values, TuplesText(ts[1..], next)))
  }

  function TuplesCells(ts: seq<PrintedTuple>): seq<seq<Cell>> {
    seq(|ts|, i requires 0 <= i < |ts| => TupleCells(ts[i].values))
  }

  // ------------------------------------------------------------ identifiers

  datatype Quote = NoQuote | Backtick | DoubleQuote | Bracket

  datatype Ident = Ident(quote: Quote, name: string)

  predicate PlainChar(c: char) {
    !IsSpace(c) && c !in ".`\"'[](),"
  }

  predicate IdentOk(i: Ident) {
    i.name != [] && forall c :: c in i.name ==> PlainChar(c)
  }

  function IdentText(i: Ident): string {
    match i.quote
    case NoQuote => i.name
    case Backtick => "`" + i.name + "`"
    case DoubleQuote => "\"" + i.name + "\""
    case Bracket => "[" + i.name + "]"
  }

  /** A table, possibly qualified by its schema. */
  datatype TableRef = TableRef(schema: Option<Ident>, table: Ident)

  predicate TableOk(t: TableRef) {
    IdentOk(t.table) && (t.schema.Some? ==> IdentOk(t.schema.value))
  }

  function TableText(t: TableRef): string {
    if t.schema.Some? then IdentText(t.schema.value) + ("." + IdentText(t.table)) else IdentText(t.table)
  }

  datatype PrintedColumn = PrintedColumn(pre: string, ident: Ident, post: string)

  predicate ColumnOk(c: PrintedColumn) {
    AllSpace(c.pre) && AllSpace(c.post) && IdentOk(c.ident)
  }

  function ColumnText(c: PrintedColumn): string {
    c.pre + IdentText(c.ident) + c.post
  }

  function ColumnsText(cs: seq<PrintedColumn>): string
    requires cs != []
  {
    if |cs| == 1 then ColumnText(cs[0]) else ColumnText(cs[0]) + ("," + ColumnsText(cs[1..]))
  }

  function ColumnNames(cs: seq<PrintedColumn>): seq<string> {
    seq(|cs|, i requires 0 <= i < |cs| => cs[i].ident.name)
  }

  // ------------------------------------------------------------- statements

  /** One INSERT statement and whatever text stands ahead of it. */
  datatype PrintedStatement = PrintedStatement(
    gap: string, insert: string, w1: string, into: string, w2: string, table: TableRef,
    w3: string, columns: Option<seq<PrintedColumn>>, w4: string, values: string, tuples: seq<PrintedTuple>)

  predicate SomeSpace(s: string) {
    s != [] && AllSpace(s)
  }

  /** Text between statements may say anything but the keyword itself. */
  predicate NoInsert(s: string) {
    forall k :: 0 <= k <= |s| ==> Keyword(s[k..], "INSERT").None?
  }

  predicate StatementOk(st: PrintedStatement) {
    && NoInsert(st.gap)
    && EqualFold(st.insert, "INSERT") && EqualFold(st.into, "INTO") && EqualFold(st.values, "VALUES")
    && SomeSpace(st.w1) && SomeSpace(st.w2) && AllSpace(st.w3) && SomeSpace(st.w4)
    && TableOk(st.table)
    && (st.columns.Some? ==> st.columns.value != [] && forall c :: c in st.columns.value ==> ColumnOk(c))
    && (forall t :: t in st.tuples ==> TupleOk(t))
  }

  /** From the table name to the end of the tuples. */
  function TablePart(st: PrintedStatement, next: string): string
    requires StatementOk(st)
  {
    var tail := st.w4 + (st.values + TuplesText(st.tuples, next));
    if st.columns.Some? then
      TableText(st.table) + (st.w3 + ("(" + (ColumnsText(st.columns.value) + (")" + tail))))
    else TableText(st.table) + tail
  }

  function StatementText(st: PrintedStatement, next: string): string
    requires StatementOk(st)
  {
    st.gap + (st.insert + (st.w1 + (st.into + (st.w2 + TablePart(st, next)))))
  }

  function StatementMeaning(st: PrintedStatement): Statement {
    Statement(st.table.table.name,
              if st.columns.Some? then Some(ColumnNames(st.columns.value)) else None,
              TuplesCells(st.tuples))
  }

  function DumpText(sts: seq<PrintedStatement>, tail: string): string
    requires forall st :: st in sts ==> StatementOk(st)
  {
    if sts == [] then tail else StatementText(sts[0], DumpText(sts[1..], tail))
  }

  function DumpMeaning(sts: seq<PrintedStatement>): seq<Statement> {
    seq(|sts|, i requires 0 <= i < |sts| => StatementMeaning(sts[i]))
  }

  /** The escapes of MySQL's own dump tool. */
  function MysqlPiece(c: char): Piece {
    if c == '\n' then Escaped('n')
    else if c == '\t' then Escaped('t')
    else if c == '\r' then Escaped('r')
    else if c == '\0' then Escaped('0')
    else if c == '\U{0008}' then Escaped('b')
    else if c == '\U{001A}' then Escaped('Z')
    else if c == '\'' || c == '"' || c == '\\' then Escaped(c)
    else Raw(c)
  }

  function MysqlEncode(v: string): seq<Piece> {
    seq(|v|, i requires 0 <= i < |v| => MysqlPiece(v[i]))
  }

  lemma MysqlStringsPrint(v: string)
    ensures PiecesValue(MysqlEncode(v)) == v && forall p :: p in MysqlEncode(v) ==> PieceOk(p)
  {
    forall i | 0 <= i < |v| ensures PieceValue(MysqlPiece(v[i])) == v[i] && PieceOk(MysqlPiece(v[i])) {}
  }
}
