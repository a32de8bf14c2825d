/** What a dump of INSERT statements says: the text read from its start, each
    function consuming a beginning and returning the rest. */
module SqlDump {
  import opened Wrappers
  import opened StagedRows
  import opened Text

  datatype ParseError = UnterminatedString | ExpectedDelimiter | UnterminatedTuple

  // ------------------------------------------------------------ identifiers

  function UpTo(s: string, c: char): (r: string)
    ensures |r| <= |s|
    ensures c !in r
  {
    if s == [] || s[0] == c then [] else [s[0]] + UpTo(s[1..], c)
  }

  /** The last dot-segment. */
  function LastSegment(s: string): string {
    if s == [] || s[|s| - 1] == '.' then [] else LastSegment(s[..|s| - 1]) + [s[|s| - 1]]
  }

  predicate Wrapped(s: string, open: char, close: char) {
    s != [] && s[0] == open && s[|s| - 1] == close
  }

  /** `slice(1, -1)`: a lone quote character becomes the empty string. */
  function Inner(s: string): string {
    if |s| >= 2 then s[1..|s| - 1] else []
  }

  function Unwrap(s: string): string {
    if Wrapped(s, '`', '`') || Wrapped(s, '"', '"') || Wrapped(s, '\'', '\'') || Wrapped(s, '[', ']') then Inner(s)
    else s
  }

  function Undouble(s: string, c: char): string {
    if s == [] then []
    else if |s| >= 2 && s[0] == c && s[1] == c then [c] + Undouble(s[2..], c)
    else [s[0]] + Undouble(s[1..], c)
  }

  function UnquoteIdent(raw: string): string {
    Undouble(Undouble(Unwrap(Trim(LastSegment(Trim(raw)))), '`'), '"')
  }

  /** `split(",")` */
  function Pieces(s: string): seq<string>
    decreases |s|
  {
    var first := UpTo(s, ',');
    if |first| < |s| then [first] + Pieces(s[|first| + 1..]) else [first]
  }

  function Names(pieces: seq<string>): seq<string> {
    if pieces == [] then []
    else (if UnquoteIdent(pieces[0]) != [] then [UnquoteIdent(pieces[0])] else []) + Names(pieces[1..])
  }

  /** The comma-separated names of a column list, empty ones dropped. */
  function SplitColumns(s: string): seq<string> {
    Names(Pieces(s))
  }

  // ----------------------------------------------------------------- values

  function Unescape(c: char): char {
    match c
    case 'n' => '\n'
    case 't' => '\t'
    case 'r' => '\r'
    case '0' => '\0'
    case 'b' => '\U{0008}'
    case 'Z' => '\U{001A}'
    case _ => c
  }

  type Read<T> = Result<(T, string), ParseError>

  function Before(out: string, r: Read<string>): Read<string> {
    match r
    case Ok((value, rest)) => Ok((out + value, rest))
    case Err(e) => Err(e)
  }

  /** From just behind the opening quote: the value, and what follows the closing one. */
  function ReadString(s: string): (r: Read<string>)
    ensures r.Ok? ==> |r.value.1| < |s|
    decreases |s|
  {
    if s == [] then Err(UnterminatedString)
    else if s[0] == '\\' then
      if |s| == 1 then Err(UnterminatedString) else Before([Unescape(s[1])], ReadString(s[2..]))
    else if s[0] == '\'' then
      if |s| > 1 && s[1] == '\'' then Before("'", ReadString(s[2..])) else Ok(("", s[1..]))
    else Before([s[0]], ReadString(s[1..]))
  }

  predicate AllDigits(s: string) {
    s != [] && forall i :: 0 <= i < |s| ==> '0' <= s[i] <= '9'
  }

  /** An optional sign, digits, and optionally a point and more digits. */
  predicate IsNumber(t: string) {
    var u := if t != [] && t[0] == '-' then t[1..] else t;
    var whole := UpTo(u, '.');
    AllDigits(whole) && (|whole| < |u| ==> AllDigits(u[|whole| + 1..]))
  }

  function InterpretUnquoted(token: string): Cell {
    var t := Trim(token);
    if t == "" then Text("")
    else if EqualFold(t, "NULL") then Null
    else if IsNumber(t) then Num(t)
    else Text(t)
  }

  predicate IsDelimiter(c: char) {
    c == ',' || c == ')'
  }

  function TokenOf(s: string): (r: string)
    ensures |r| <= |s|
  {
    if s == [] || IsDelimiter(s[0]) then [] else [s[0]] + TokenOf(s[1..])
  }

  /** One value, and what follows it. */
  function ReadValue(s: string): (r: Read<Cell>)
    ensures r.Ok? ==> |r.value.1| <= |s|
  {
    if s != [] && s[0] == '\'' then
      match ReadString(s[1..])
      case Ok((value, rest)) => Ok((Text(value), rest))
      case Err(e) => Err(e)
    else
      var token := TokenOf(s);
      Ok((InterpretUnquoted(token), s[|token|..]))
  }

  function Cons(cell: Cell, r: Read<seq<Cell>>): Read<seq<Cell>> {
    match r
    case Ok((cells, rest)) => Ok(([cell] + cells, rest))
    case Err(e) => Err(e)
  }

  /** From just behind the opening parenthesis: the values, and what follows the
      closing one. */
  function ReadTuple(s: string): (r: Read<seq<Cell>>)
    ensures r.Ok? ==> |r.value.1| < |s|
    decreases |s|
  {
    if s == [] then Err(UnterminatedTuple)
    else
      var s1 := SkipSpace(s);
      if s1 != [] && s1[0] == ')' then Ok(([], s1[1..]))
      else match ReadValue(s1)
        case Err(e) => Err(e)
        case Ok((cell, rest)) =>
          var s2 := SkipSpace(rest);
          if s2 != [] && s2[0] == ',' then Cons(cell, ReadTuple(s2[1..]))
          else if s2 != [] && s2[0] == ')' then Ok(([cell], s2[1..]))
          else Err(ExpectedDelimiter)
  }

  // ------------------------------------------------------------- statements

  function SkipSeparators(s: string): (r: string)
    ensures |r| <= |s|
  {
    if s != [] && (IsSpace(s[0]) || s[0] == ',') then SkipSeparators(s[1..]) else s
  }

  /** The tuples of a statement, where they end, and what went wrong if they do not. */
  datatype Tuples = Tuples(values: seq<seq<Cell>>, rest: string, error: Option<ParseError>)

  function ReadTuples(s: string): (r: Tuples)
    ensures |r.rest| <= |s|
    decreases |s|
  {
    var s1 := SkipSeparators(s);
    if s1 == [] then Tuples([], s1, None)
    else if s1[0] == ';' then Tuples([], s1[1..], None)
    else if s1[0] != '(' then Tuples([], s1, None)
    else match ReadTuple(s1[1..])
      case Err(e) => Tuples([], s1[1..], Some(e))
      case Ok((values, rest)) =>
        var more := ReadTuples(rest);
        more.(values := [values] + more.values)
  }

  /** Case-insensitive keyword at the start of `s`. */
  function Keyword(s: string, k: string): (r: Option<string>)
    ensures r.Some? ==> |r.value| == |s| - |k|
  {
    if |s| >= |k| && EqualFold(s[..|k|], k) then Some(s[|k|..]) else None
  }

  function Spaces(s: string): (r: Option<string>)
    ensures r.Some? ==> |r.value| < |s|
  {
    if s != [] && IsSpace(s[0]) then Some(SkipSpace(s[1..])) else None
  }

  function TableToken(s: string): (r: string)
    ensures |r| <= |s|
  {
    if s == [] || IsSpace(s[0]) || s[0] == '(' then [] else [s[0]] + TableToken(s[1..])
  }

  datatype Prefix = Prefix(table: string, columns: Option<string>, rest: string)

  function ValuesAfter(s: string, table: string, columns: Option<string>): (r: Option<Prefix>)
    ensures r.Some? ==> |r.value.rest| <= |s|
  {
    match Spaces(s)
    case None => None
    case Some(s1) =>
      match Keyword(s1, "VALUES")
      case None => None
      case Some(rest) => Some(Prefix(table, columns, rest))
  }

  /** The rest of a prefix, from the table name on. A column list needs its closing
      parenthesis, and no part of the pattern can match in a second way. */
  function MatchTable(s: string): (r: Option<Prefix>)
    ensures r.Some? ==> |r.value.rest| <= |s|
  {
    var table := TableToken(s);
    var s1 := s[|table|..];
    var s2 := SkipSpace(s1);
    if table == [] then None
    else if s2 != [] && s2[0] == '(' then
      var columns := UpTo(s2[1..], ')');
      if |columns| == |s2| - 1 then None
      else ValuesAfter(s2[|columns| + 2..], table, Some(columns))
    else ValuesAfter(s1, table, None)
  }

  /** INSERT INTO table [(columns)] VALUES, at the start of `s`. */
  function MatchPrefix(s: string): (r: Option<Prefix>)
    ensures r.Some? ==> |r.value.rest| < |s|
  {
    match Keyword(s, "INSERT")
    case None => None
    case Some(s1) =>
      match Spaces(s1)
      case None => None
      case Some(s2) =>
        match Keyword(s2, "INTO")
        case None => None
        case Some(s3) =>
          match Spaces(s3)
          case None => None
          case Some(s4) => MatchTable(s4)
  }

  /** The first prefix anywhere in `s`. */
  function FindPrefix(s: string): (r: Option<Prefix>)
    ensures r.Some? ==> |r.value.rest| < |s|
  {
    if s == [] then None
    else if MatchPrefix(s).Some? then MatchPrefix(s)
    else FindPrefix(s[1..])
  }

  datatype Statement = Statement(table: string, columns: Option<seq<string>>, tuples: seq<seq<Cell>>)

  function StatementOf(p: Prefix, tuples: seq<seq<Cell>>): Statement {
    Statement(UnquoteIdent(p.table), if p.columns.Some? then Some(SplitColumns(p.columns.value)) else None, tuples)
  }

  /** All the statements of a dump, the last one cut short where the text is
      malformed. Nothing here knows which table is wanted, or how many rows. */
  datatype Dump = Dump(statements: seq<Statement>, error: Option<ParseError>)

  function ReadDump(s: string): Dump
    decreases |s|
  {
    match FindPrefix(s)
    case None => Dump([], None)
    case Some(p) =>
      var t := ReadTuples(p.rest);
      var here := StatementOf(p, t.values);
      if t.error.Some? then Dump([here], t.error)
      else
        var more := ReadDump(t.rest);
        more.(statements := [here] + more.statements)
  }

  // ------------------------------------------------- what is asked of a dump

  predicate HasColumns(st: Statement) {
    st.columns.Some? && st.columns.value != []
  }

  function CellAt(values: seq<Cell>, k: nat): Cell {
    if k < |values| then values[k] else Null
  }

  /** The one name that an assignment does not make a key of. */
  const PROTO := "__proto__"

  /** Column by column; a repeated name keeps the last value. */
  function RowOf(columns: seq<string>, values: seq<Cell>): RawRow {
    if columns == [] then map[]
    else
      var n := |columns| - 1;
      if columns[n] == PROTO then RowOf(columns[..n], values)
      else RowOf(columns[..n], values)[columns[n] := CellAt(values, n)]
  }

  function RowsOfTuples(columns: seq<string>, tuples: seq<seq<Cell>>): seq<RawRow> {
    seq(|tuples|, k requires 0 <= k < |tuples| => RowOf(columns, tuples[k]))
  }

  /** The rows of table `t`, in the order of the text. */
  function RowsOf(sts: seq<Statement>, t: string): seq<RawRow> {
    if sts == [] then []
    else
      var st := sts[|sts| - 1];
      RowsOf(sts[..|sts| - 1], t)
      + (if st.table == t && HasColumns(st) then RowsOfTuples(st.columns.value, st.tuples) else [])
  }

  /** The table names, each where it first appears. */
  function NamesOf(sts: seq<Statement>): seq<string> {
    if sts == [] then []
    else
      var names := NamesOf(sts[..|sts| - 1]);
      if sts[|sts| - 1].table in names then names else names + [sts[|sts| - 1].table]
  }

  /** Whether the last statement for `t` names its columns. */
  predicate LastHadColumns(sts: seq<Statement>, t: string) {
    sts != [] && if sts[|sts| - 1].table == t then HasColumns(sts[|sts| - 1]) else LastHadColumns(sts[..|sts| - 1], t)
  }
}
