/** What the small readers of the dump parser accept and return, in terms of characters
    alone: the pattern of an INSERT statement, identifiers, column lists, bare values
    and escapes. */
module SqlMeaning {
  import opened Wrappers
  import opened Sequences
  import opened StagedRows
  import opened Text
  import opened SqlDump
  import opened SqlPrinter
  import opened SqlRoundTrip

  // ----------------------------------------------------------- INSERT ... VALUES

  /** The pieces of a match of the pattern. */
  datatype Match = Match(
    insert: string, w1: string, into: string, w2: string, table: string,
    w3: string, columns: Option<string>, w4: string, values: string)

  ghost predicate MatchOk(m: Match) {
    && EqualFold(m.insert, "INSERT") && EqualFold(m.into, "INTO") && EqualFold(m.values, "VALUES")
    && SomeSpace(m.w1) && SomeSpace(m.w2) && AllSpace(m.w3) && SomeSpace(m.w4)
    && m.table != [] && (forall c :: c in m.table ==> !IsSpace(c) && c != '(')
    && (m.columns.Some? ==> ')' !in m.columns.value)
  }

  /** From the table name on; a column list stands in parentheses. */
  function TableTail(m: Match, rest: string): string {
    var tail := m.w4 + (m.values + rest);
    if m.columns.Some? then m.table + (m.w3 + ("(" + (m.columns.value + (")" + tail)))) else m.table + tail
  }

  function MatchText(m: Match, rest: string): string {
    m.insert + (m.w1 + (m.into + (m.w2 + TableTail(m, rest))))
  }

  /** Whatever has the pattern is matched, with the captures and the end that it shows. */
  lemma PatternMatches(m: Match, rest: string)
    requires MatchOk(m)
    ensures MatchPrefix(MatchText(m, rest)) == Some(Prefix(m.table, m.columns, rest))
  {
    var tail := TableTail(m, rest);
    assert tail[0] == m.table[0] && m.table[0] in m.table;
    PrefixChain(m.insert, m.w1, m.into, m.w2, tail);
    assert Upper(m.values[0]) == 'V';
    SpacesPrinted(m.w4, m.values + rest);
    KeywordPrinted(m.values, "VALUES", rest);
    if m.columns.Some? {
      MatchTableWith(m.table, m.w3, m.columns.value, m.w4 + (m.values + rest));
    } else {
      MatchTableWithout(m.table, m.w4, m.values + rest);
    }
  }

  lemma {:induction false} SkipSpaceSplit(s: string) returns (w: string)
    ensures AllSpace(w) && s == w + SkipSpace(s)
  {
    if s != [] && IsSpace(s[0]) {
      var w1 := SkipSpaceSplit(s[1..]);
      w := [s[0]] + w1;
      assert s == [s[0]] + s[1..];
    } else {
      w := [];
    }
  }

  lemma SpacesSplit(s: string) returns (w: string)
    requires Spaces(s).Some?
    ensures SomeSpace(w) && s == w + Spaces(s).value
  {
    var w1 := SkipSpaceSplit(s[1..]);
    w := [s[0]] + w1;
    ConcatAssoc([s[0]], w1, SkipSpace(s[1..]));
    assert s == [s[0]] + s[1..];
  }

  lemma KeywordSplit(s: string, k: string) returns (word: string)
    requires Keyword(s, k).Some?
    ensures EqualFold(word, k) && s == word + Keyword(s, k).value
  {
    word := s[..|k|];
  }

  lemma {:induction false} TokenSplit(s: string)
    ensures var t := TableToken(s);
      && |t| <= |s| && t == s[..|t|] && forall c :: c in t ==> !IsSpace(c) && c != '('
  {
    if s != [] && !IsSpace(s[0]) && s[0] != '(' {
      TokenSplit(s[1..]);
      var n := |TableToken(s[1..])|;
      assert s[..n + 1] == [s[0]] + s[1..][..n];
    }
  }

  lemma ValuesSplit(s: string, table: string, columns: Option<string>) returns (w: string, values: string)
    requires ValuesAfter(s, table, columns).Some?
    ensures SomeSpace(w) && EqualFold(values, "VALUES")
    ensures var p := ValuesAfter(s, table, columns).value;
      p.table == table && p.columns == columns && s == w + (values + p.rest)
  {
    w := SpacesSplit(s);
    values := KeywordSplit(Spaces(s).value, "VALUES");
  }

  /** From the table name on, the pieces that `m` names. */
  ghost predicate TailOk(s: string, m: Match) {
    && MatchTable(s).Some?
    && var p := MatchTable(s).value;
       && m.table != [] && (forall c :: c in m.table ==> !IsSpace(c) && c != '(')
       && AllSpace(m.w3) && SomeSpace(m.w4) && EqualFold(m.values, "VALUES")
       && (m.columns.Some? ==> ')' !in m.columns.value)
       && p.table == m.table && p.columns == m.columns && s == TableTail(m, p.rest)
  }

  lemma ListSplit(s2: string) returns (columns: string, s3: string)
    requires s2 != [] && s2[0] == '(' && |UpTo(s2[1..], ')')| < |s2| - 1
    ensures columns == UpTo(s2[1..], ')') && s3 == s2[|columns| + 2..]
    ensures ')' !in columns && s2 == "(" + (columns + (")" + s3))
  {
    columns := UpTo(s2[1..], ')');
    s3 := s2[|columns| + 2..];
    UpToIsPrefix(s2[1..], ')');
  }

  lemma ReadTableList(s: string, columns: string, s3: string)
    requires var s2 := SkipSpace(s[|TableToken(s)|..]);
      s2 != [] && s2[0] == '(' && columns == UpTo(s2[1..], ')') && |columns| < |s2| - 1 && s3 == s2[|columns| + 2..]
    ensures MatchTable(s) == if TableToken(s) == [] then None else ValuesAfter(s3, TableToken(s), Some(columns))
  {
  }

  lemma WithList(s: string, s2: string) returns (m: Match)
    requires MatchTable(s).Some? && s2 == SkipSpace(s[|TableToken(s)|..]) && s2 != [] && s2[0] == '('
    ensures TailOk(s, m)
  {
    var table := TableToken(s);
    var columns, s3 := ListSplit(s2);
    var w3 := SkipSpaceSplit(s[|table|..]);
    ReadTableList(s, columns, s3);
    var w4, values := ValuesSplit(s3, table, Some(columns));
    TokenSplit(s);
    m := Match("", "", "", "", table, w3, Some(columns), w4, values);
    JoinTable(s, table, w3 + s2);
  }

  lemma WithoutList(s: string) returns (m: Match)
    requires MatchTable(s).Some?
    requires var s2 := SkipSpace(s[|TableToken(s)|..]); s2 == [] || s2[0] != '('
    ensures TailOk(s, m)
  {
    var table := TableToken(s);
    var w4, values := ValuesSplit(s[|table|..], table, None);
    TokenSplit(s);
    m := Match("", "", "", "", table, "", None, w4, values);
    JoinTable(s, table, s[|table|..]);
  }

  lemma JoinTable(s: string, table: string, s1: string)
    requires |table| <= |s| && table == s[..|table|] && s1 == s[|table|..]
    ensures s == table + s1
  {
  }

  lemma TableSplit(s: string) returns (m: Match)
    requires MatchTable(s).Some?
    ensures TailOk(s, m)
  {
    var s2 := SkipSpace(s[|TableToken(s)|..]);
    if s2 != [] && s2[0] == '(' {
      m := WithList(s, s2);
    } else {
      m := WithoutList(s);
    }
  }

  /** Whatever is matched has the pattern. */
  lemma MatchesHavePattern(s: string) returns (m: Match)
    requires MatchPrefix(s).Some?
    ensures var p := MatchPrefix(s).value;
      MatchOk(m) && p.table == m.table && p.columns == m.columns && s == MatchText(m, p.rest)
  {
    var insert := KeywordSplit(s, "INSERT");
    var s1 := Keyword(s, "INSERT").value;
    var w1 := SpacesSplit(s1);
    var s2 := Spaces(s1).value;
    var into := KeywordSplit(s2, "INTO");
    var s3 := Keyword(s2, "INTO").value;
    var w2 := SpacesSplit(s3);
    var t := TableSplit(Spaces(s3).value);
    m := t.(insert := insert, w1 := w1, into := into, w2 := w2);
    assert TableTail(m, MatchPrefix(s).value.rest) == TableTail(t, MatchPrefix(s).value.rest);
  }

  /** The search finds the first place where the pattern matches. */
  lemma {:induction false} FirstMatch(s: string)
    ensures FindPrefix(s).None? ==> forall k :: 0 <= k <= |s| ==> MatchPrefix(s[k..]).None?
    ensures FindPrefix(s).Some? ==> exists k :: 0 <= k <= |s| && MatchPrefix(s[k..]) == FindPrefix(s)
                                                && forall j :: 0 <= j < k ==> MatchPrefix(s[j..]).None?
  {
    if s != [] {
      assert s[0..] == s;
      if MatchPrefix(s).None? {
        FirstMatch(s[1..]);
        assert forall k :: 0 <= k < |s| ==> s[1..][k..] == s[k + 1..];
        if FindPrefix(s).Some? {
          var k :| 0 <= k < |s| && MatchPrefix(s[1..][k..]) == FindPrefix(s)
            && forall j :: 0 <= j < k ==> MatchPrefix(s[1..][j..]).None?;
          forall j | 0 <= j < k + 1 ensures MatchPrefix(s[j..]).None? {
            if j > 0 { assert s[j..] == s[1..][j - 1..]; }
          }
          assert s[k + 1..] == s[1..][k..];
        } else {
          forall k | 0 <= k <= |s| ensures MatchPrefix(s[k..]).None? {
            if k > 0 { assert s[k..] == s[1..][k - 1..]; }
          }
        }
      }
    }
  }

  // ---------------------------------------------------------------- identifiers

  /** Every occurrence of `c` twice. */
  function Doubled(s: string, c: char): string {
    if s == [] then [] else (if s[0] == c then [c, c] else [s[0]]) + Doubled(s[1..], c)
  }

  lemma {:induction false} DoubledUndoubles(s: string, c: char)
    ensures Undouble(Doubled(s, c), c) == s
    ensures c !in s ==> Doubled(s, c) == s
    ensures forall x :: x in Doubled(s, c) ==> x in s
  {
    if s != [] {
      DoubledUndoubles(s[1..], c);
      var d := Doubled(s[1..], c);
      assert s == [s[0]] + s[1..];
      if s[0] == c {
        assert ([c, c] + d)[2..] == d;
      } else {
        assert ([s[0]] + d)[1..] == d;
      }
    }
  }

  lemma {:induction false} NothingToUndouble(s: string, c: char)
    requires c !in s
    ensures Undouble(s, c) == s
  {
    if s != [] {
      NothingToUndouble(s[1..], c);
      assert s == [s[0]] + s[1..];
    }
  }

  lemma {:induction false} NoDot(s: string)
    requires '.' !in s
    ensures LastSegment(s) == s
  {
    if s != [] {
      var n := |s| - 1;
      NoDot(s[..n]);
      assert s == s[..n] + [s[n]];
    }
  }

  /** A text that begins and ends with something visible is not trimmed. */
  lemma VisibleEnds(s: string)
    requires s != [] && !IsSpace(s[0]) && !IsSpace(s[|s| - 1])
    ensures Trim(s) == s
  {
  }

  /** The marks around a quoted identifier: back-ticks, double or single quotes, or brackets. */
  ghost predicate Marks(open: char, close: char) {
    (open == close && open in "`\"'") || (open == '[' && close == ']')
  }

  lemma MarkedText(d: string, open: char, close: char)
    requires '.' !in d && open != '.' && close != '.'
    ensures var text := [open] + (d + [close]);
      && |text| >= 2 && text[0] == open && text[|text| - 1] == close
      && Inner(text) == d && '.' !in text
  {
  }

  lemma UnwrapMarks(text: string, open: char, close: char)
    requires Marks(open, close) && |text| >= 2 && text[0] == open && text[|text| - 1] == close
    ensures Unwrap(text) == Inner(text) && !IsSpace(open) && !IsSpace(close) && open != '.' && close != '.'
  {
  }

  /** Marks come off, and then nothing but doubled marks is left to undo. */
  lemma MarksComeOff(d: string, open: char, close: char)
    requires Marks(open, close) && '.' !in d
    ensures UnquoteIdent([open] + (d + [close])) == Undouble(Undouble(d, '`'), '"')
  {
    var text := [open] + (d + [close]);
    MarkedText(d, open, close);
    UnwrapMarks(text, open, close);
    VisibleEnds(text);
    NoDot(text);
  }

  /** Inside back-ticks or double quotes the mark itself is doubled; anything else but
      a dot and the other of these two marks stands for itself. */
  lemma QuotedIdentifier(name: string, open: char, close: char)
    requires Marks(open, close) && '.' !in name
    requires (open != '`' ==> '`' !in name) && (open != '"' ==> '"' !in name)
    ensures UnquoteIdent([open] + (Doubled(name, if open == '"' then '"' else '`') + [close])) == name
  {
    var q := if open == '"' then '"' else '`';
    var d := Doubled(name, q);
    DoubledUndoubles(name, q);
    MarksComeOff(d, open, close);
    if q == '"' {
      NothingToUndouble(d, '`');
    } else {
      NothingToUndouble(name, '"');
    }
  }

  /** A quote character on its own is both marks, and the name is empty. */
  lemma LoneMark(c: char)
    requires c in "`\"'"
    ensures UnquoteIdent([c]) == ""
  {
    VisibleEnds([c]);
    NoDot([c]);
  }

  /** Of a qualified name only what stands behind the last dot counts. */
  lemma {:induction false} LastDotSplits(a: string, b: string)
    requires '.' !in b
    ensures LastSegment(a + ("." + b)) == b
    decreases |b|
  {
    var s := a + ("." + b);
    if b == [] {
      assert s[|s| - 1] == '.';
    } else {
      var n := |b| - 1;
      LastDotSplits(a, b[..n]);
      assert s[..|s| - 1] == a + ("." + b[..n]);
      assert b == b[..n] + [b[n]];
    }
  }

  // --------------------------------------------------------------- column lists

  /** A list is its pieces between commas, unquoted, and blank ones are dropped. */
  lemma ColumnsByComma(first: string, more: string)
    requires ',' !in first
    ensures var name := UnquoteIdent(first); var here := if name == "" then [] else [name];
      && SplitColumns(first) == here
      && SplitColumns(first + ("," + more)) == here + SplitColumns(more)
  {
    PiecesOnly(first);
    PiecesMore(first, more);
    assert ([first] + Pieces(more))[1..] == Pieces(more);
    assert [first][1..] == [];
    assert Names([]) == [];
  }

  // ---------------------------------------------------------------- bare values

  lemma {:induction false} OnlySpace(s: string)
    requires AllSpace(s)
    ensures Trim(s) == ""
  {
    ConcatEmpty(s);
    SkipSpaces(s, []);
  }

  /** A bare value: nothing is the empty string, NULL in any casing is null, a signed
      decimal keeps its digits, and anything else is text; white space around it does
      not count. */
  lemma BareValue(w1: string, core: string, w2: string)
    requires AllSpace(w1) && AllSpace(w2) && Trimmed(core)
    ensures InterpretUnquoted(w1 + core + w2) ==
      if core == "" then Text("")
      else if IsNullWord(core) then Null
      else if exists negative, whole, fraction :: NumberShape(core, negative, whole, fraction) then Num(core)
      else Text(core)
  {
    if core == "" {
      assert AllSpace(w1 + core + w2);
      OnlySpace(w1 + core + w2);
    } else {
      TrimSpaces(w1, core, w2);
      NumberGrammar(core);
      FoldIgnoresCase(core, "NULL");
    }
  }

  ghost predicate IsNullWord(s: string) {
    |s| == 4 && forall i :: 0 <= i < 4 ==> s[i] == "NULL"[i] || s[i] as int == "NULL"[i] as int + 32
  }

  /** The escapes, each of them. */
  lemma EscapeTable(c: char)
    ensures c == 'n' ==> Unescape(c) as int == 10
    ensures c == 't' ==> Unescape(c) as int == 9
    ensures c == 'r' ==> Unescape(c) as int == 13
    ensures c == '0' ==> Unescape(c) as int == 0
    ensures c == 'b' ==> Unescape(c) as int == 8
    ensures c == 'Z' ==> Unescape(c) as int == 26
    ensures c !in "ntr0bZ" ==> Unescape(c) == c
  {
  }
}
