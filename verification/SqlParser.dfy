/** The cursor loops of the dump parser. Each is shown to read what the text says,
    so the table and the limit asked for never move a cursor. */
module SqlParser {
  import opened Wrappers
  import opened Sequences
  import opened StagedRows
  import opened Text
  import opened SqlDump

  // ------------------------------------------------------------ the values

  method ReadSqlString(sql: string, start: nat) returns (r: Result<(string, nat), ParseError>)
    requires start < |sql| && sql[start] == '\''
    ensures r.Ok? ==> start < r.value.1 <= |sql|
    ensures ReadString(sql[start + 1..]) == match r
      case Ok((value, next)) => Ok((value, sql[next..]))
      case Err(e) => Err(e)
  {
    var i := start + 1;
    var out := "";
    ghost var all := ReadString(sql[i..]);
    assert Before(out, all) == all by { if all.Ok? { assert out + all.value.0 == all.value.0; } }
    while i < |sql|
      invariant start < i
      invariant all == if i <= |sql| then Before(out, ReadString(sql[i..])) else Err(UnterminatedString)
    {
      var c := sql[i];
      ghost var s := sql[i..];
      assert s[0] == c && s[1..] == sql[i + 1..];
      if c == '\\' {
        if i + 1 < |sql| {
          assert s[1] == sql[i + 1] && s[2..] == sql[i + 2..];
          BeforeTwice(out, [Unescape(sql[i + 1])], ReadString(sql[i + 2..]));
          out := out + [Unescape(sql[i + 1])];
        }
        i := i + 2;
      } else if c == '\'' {
        if i + 1 < |sql| && sql[i + 1] == '\'' {
          assert s[1] == '\'' && s[2..] == sql[i + 2..];
          BeforeTwice(out, "'", ReadString(sql[i + 2..]));
          out := out + "'";
          i := i + 2;
        } else {
          assert out + "" == out;
          return Ok((out, i + 1));
        }
      } else {
        BeforeTwice(out, [c], ReadString(sql[i + 1..]));
        out := out + [c];
        i := i + 1;
      }
    }
    return Err(UnterminatedString);
  }

  lemma BeforeTwice(a: string, b: string, r: Read<string>)
    ensures Before(a, Before(b, r)) == Before(a + b, r)
  {
    if r.Ok? { assert a + (b + r.value.0) == a + b + r.value.0; }
  }

  /** The cursor after white space. */
  method SkipSpaceFrom(sql: string, start: nat) returns (i: nat)
    requires start <= |sql|
    ensures start <= i <= |sql| && sql[i..] == SkipSpace(sql[start..])
    ensures i < |sql| ==> !IsSpace(sql[i])
  {
    i := start;
    while i < |sql| && IsSpace(sql[i])
      invariant start <= i <= |sql| && SkipSpace(sql[start..]) == SkipSpace(sql[i..])
    {
      assert sql[i..][1..] == sql[i + 1..];
      i := i + 1;
    }
  }

  method ReadToken(sql: string, start: nat) returns (i: nat)
    requires start <= |sql|
    ensures start <= i <= |sql|
    ensures var token := TokenOf(sql[start..]); token == sql[start..i] && sql[start..][|token|..] == sql[i..]
  {
    i := start;
    ghost var token := TokenOf(sql[start..]);
    while i < |sql| && !IsDelimiter(sql[i])
      invariant start <= i <= |sql|
      invariant token == sql[start..i] + TokenOf(sql[i..])
    {
      TokenStep(sql, start, i);
      i := i + 1;
    }
    assert TokenOf(sql[i..]) == [];
    ConcatEmpty(sql[start..i]);
  }

  lemma TokenStep(sql: string, start: nat, i: nat)
    requires start <= i < |sql| && !IsDelimiter(sql[i])
    ensures sql[start..i] + TokenOf(sql[i..]) == sql[start..i + 1] + TokenOf(sql[i + 1..])
  {
    assert sql[i..][1..] == sql[i + 1..];
    assert sql[start..i + 1] == sql[start..i] + [sql[i]];
    ConcatAssoc(sql[start..i], [sql[i]], TokenOf(sql[i + 1..]));
  }

  /** One value of a tuple, of either kind. */
  method ParseValue(sql: string, start: nat) returns (r: Result<(Cell, nat), ParseError>)
    requires start <= |sql|
    ensures r.Ok? ==> start <= r.value.1 <= |sql|
    ensures ReadValue(sql[start..]) == match r
      case Ok((cell, next)) => Ok((cell, sql[next..]))
      case Err(e) => Err(e)
  {
    if start < |sql| && sql[start] == '\'' {
      assert sql[start..][1..] == sql[start + 1..];
      var s := ReadSqlString(sql, start);
      match s
      case Err(e) => return Err(e);
      case Ok((value, next)) => return Ok((Text(value), next));
    }
    var i := ReadToken(sql, start);
    return Ok((InterpretUnquoted(sql[start..i]), i));
  }

  function Onto(values: seq<Cell>, r: Read<seq<Cell>>): Read<seq<Cell>> {
    match r
    case Ok((cells, rest)) => Ok((values + cells, rest))
    case Err(e) => Err(e)
  }

  lemma OntoCons(values: seq<Cell>, cell: Cell, r: Read<seq<Cell>>)
    ensures Onto(values, Cons(cell, r)) == Onto(values + [cell], r)
  {
    if r.Ok? { assert values + ([cell] + r.value.0) == values + [cell] + r.value.0; }
  }

  /** What one turn of the tuple loop finds. */
  datatype Turn = Close(next: nat) | Last(cell: Cell, next: nat) | More(cell: Cell, next: nat) | Bad(error: ParseError)

  /** A tuple whose first value is `cell`, from behind that value. */
  function AfterCell(cell: Cell, rest: string): Read<seq<Cell>> {
    var s := SkipSpace(rest);
    if s != [] && s[0] == ',' then Cons(cell, ReadTuple(s[1..]))
    else if s != [] && s[0] == ')' then Ok(([cell], s[1..]))
    else Err(ExpectedDelimiter)
  }

  lemma TupleGoesOn(s: string, s1: string, cell: Cell, rest: string)
    requires s != [] && s1 == SkipSpace(s) && (s1 != [] ==> s1[0] != ')') && ReadValue(s1) == Ok((cell, rest))
    ensures ReadTuple(s) == AfterCell(cell, rest)
  {
  }

  method ParseDelimiter(sql: string, cell: Cell, start: nat) returns (t: Turn)
    requires start <= |sql|
    ensures !t.Bad? ==> start < t.next <= |sql|
    ensures AfterCell(cell, sql[start..]) == match t
      case Close(next) => Ok(([], sql[next..]))
      case Last(cell, next) => Ok(([cell], sql[next..]))
      case More(cell, next) => Cons(cell, ReadTuple(sql[next..]))
      case Bad(e) => Err(e)
  {
    var k := SkipSpaceFrom(sql, start);
    if k < |sql| {
      assert sql[k..][1..] == sql[k + 1..];
      if sql[k] == ',' { return More(cell, k + 1); }
      if sql[k] == ')' { return Last(cell, k + 1); }
    }
    return Bad(ExpectedDelimiter);
  }

  method ParseTurn(sql: string, start: nat) returns (t: Turn)
    requires start < |sql|
    ensures !t.Bad? ==> start < t.next <= |sql|
    ensures ReadTuple(sql[start..]) == match t
      case Close(next) => Ok(([], sql[next..]))
      case Last(cell, next) => Ok(([cell], sql[next..]))
      case More(cell, next) => Cons(cell, ReadTuple(sql[next..]))
      case Bad(e) => Err(e)
  {
    var i := SkipSpaceFrom(sql, start);
    if i < |sql| && sql[i] == ')' {
      assert sql[i..][1..] == sql[i + 1..];
      return Close(i + 1);
    }
    var v := ParseValue(sql, i);
    match v
    case Err(e) => return Bad(e);
    case Ok((cell, j)) =>
      TupleGoesOn(sql[start..], sql[i..], cell, sql[j..]);
      t := ParseDelimiter(sql, cell, j);
  }

  /** From just behind the opening parenthesis. */
  method ParseTuple(sql: string, start: nat) returns (r: Result<(seq<Cell>, nat), ParseError>)
    requires start <= |sql|
    ensures r.Ok? ==> start < r.value.1 <= |sql|
    ensures ReadTuple(sql[start..]) == match r
      case Ok((values, next)) => Ok((values, sql[next..]))
      case Err(e) => Err(e)
  {
    var i := start;
    var values: seq<Cell> := [];
    ghost var all := ReadTuple(sql[start..]);
    assert all == Onto([], all) by { if all.Ok? { assert [] + all.value.0 == all.value.0; } }
    while i < |sql|
      invariant start <= i <= |sql|
      invariant all == Onto(values, ReadTuple(sql[i..]))
    {
      var t := ParseTurn(sql, i);
      match t
      case Close(next) =>
        assert values + [] == values;
        return Ok((values, next));
      case Last(cell, next) => return Ok((values + [cell], next));
      case More(cell, next) =>
        OntoCons(values, cell, ReadTuple(sql[next..]));
        values := values + [cell];
        i := next;
      case Bad(e) => return Err(e);
    }
    return Err(UnterminatedTuple);
  }

  // --------------------------------------------------- the rest is a suffix

  ghost predicate Suffix(r: string, s: string) {
    |r| <= |s| && r == s[|s| - |r|..]
  }

  lemma SuffixTrans(r: string, s: string, t: string)
    requires Suffix(r, s) && Suffix(s, t)
    ensures Suffix(r, t)
  {
  }

  lemma {:induction false} SkipSpaceSuffix(s: string)
    ensures Suffix(SkipSpace(s), s)
  {
    if s != [] && IsSpace(s[0]) { SkipSpaceSuffix(s[1..]); SuffixTrans(SkipSpace(s), s[1..], s); }
  }

  lemma SpacesSuffix(s: string)
    ensures Spaces(s).Some? ==> Suffix(Spaces(s).value, s)
  {
    if Spaces(s).Some? { SkipSpaceSuffix(s[1..]); SuffixTrans(Spaces(s).value, s[1..], s); }
  }

  lemma ValuesSuffix(s: string, table: string, columns: Option<string>)
    ensures ValuesAfter(s, table, columns).Some? ==> Suffix(ValuesAfter(s, table, columns).value.rest, s)
  {
    SpacesSuffix(s);
    if ValuesAfter(s, table, columns).Some? {
      var s1 := Spaces(s).value;
      SuffixTrans(s1[6..], s1, s);
    }
  }

  lemma ListSuffix(s: string, s2: string)
    requires Suffix(s2, s) && s2 == SkipSpace(s[|TableToken(s)|..]) && s2 != [] && s2[0] == '('
    ensures MatchTable(s).Some? ==> Suffix(MatchTable(s).value.rest, s)
  {
    var columns := UpTo(s2[1..], ')');
    if |columns| < |s2| - 1 {
      var s3 := s2[|columns| + 2..];
      ValuesSuffix(s3, TableToken(s), Some(columns));
      SuffixTrans(s3, s2, s);
      if MatchTable(s).Some? { SuffixTrans(MatchTable(s).value.rest, s3, s); }
    }
  }

  lemma TableSuffix(s: string)
    ensures MatchTable(s).Some? ==> Suffix(MatchTable(s).value.rest, s)
  {
    var s1 := s[|TableToken(s)|..];
    var s2 := SkipSpace(s1);
    SkipSpaceSuffix(s1);
    SuffixTrans(s2, s1, s);
    if s2 != [] && s2[0] == '(' {
      ListSuffix(s, s2);
    } else {
      ValuesSuffix(s1, TableToken(s), None);
      if MatchTable(s).Some? { SuffixTrans(MatchTable(s).value.rest, s1, s); }
    }
  }

  lemma PrefixSuffix(s: string)
    ensures MatchPrefix(s).Some? ==> Suffix(MatchPrefix(s).value.rest, s)
  {
    if MatchPrefix(s).Some? {
      var s1 := s[6..];
      var s2 := Spaces(s1).value;
      var s3 := s2[4..];
      var s4 := Spaces(s3).value;
      SpacesSuffix(s1);
      SpacesSuffix(s3);
      TableSuffix(s4);
      SuffixTrans(s2, s1, s);
      SuffixTrans(s3, s2, s);
      SuffixTrans(s4, s3, s);
      SuffixTrans(MatchTable(s4).value.rest, s4, s);
    }
  }

  /** A suffix of a suffix, by its position in the whole. */
  lemma SuffixAt(r: string, sql: string, i: nat)
    requires i <= |sql| && Suffix(r, sql[i..])
    ensures |r| <= |sql| && sql[|sql| - |r|..] == r
  {
    SuffixTrans(r, sql[i..], sql);
  }

  /** The match that starts at `i`, if there is one; else the search goes on at `i + 1`. */
  lemma FindAt(sql: string, i: nat)
    requires i < |sql|
    ensures var p := MatchPrefix(sql[i..]);
      && FindPrefix(sql[i..]) == (if p.Some? then p else FindPrefix(sql[i + 1..]))
      && (p.Some? ==> |p.value.rest| < |sql| - i && sql[|sql| - |p.value.rest|..] == p.value.rest)
  {
    assert sql[i..][1..] == sql[i + 1..];
    PrefixSuffix(sql[i..]);
    if MatchPrefix(sql[i..]).Some? { SuffixAt(MatchPrefix(sql[i..]).value.rest, sql, i); }
  }

  /** One `exec` of the pattern from position `from`: what it captured, and where
      the match ends. */
  method FindInsert(sql: string, from: nat) returns (m: Option<(Prefix, nat)>)
    requires from <= |sql|
    ensures m.None? ==> FindPrefix(sql[from..]).None?
    ensures m.Some? ==> from < m.value.1 <= |sql| && sql[m.value.1..] == m.value.0.rest
    ensures m.Some? ==> FindPrefix(sql[from..]) == Some(m.value.0)
  {
    var i := from;
    while i < |sql|
      invariant from <= i <= |sql| && FindPrefix(sql[from..]) == FindPrefix(sql[i..])
    {
      var p := MatchPrefix(sql[i..]);
      FindAt(sql, i);
      if p.Some? {
        return Some((p.value, |sql| - |p.value.rest|));
      }
      i := i + 1;
    }
    return None;
  }
}
