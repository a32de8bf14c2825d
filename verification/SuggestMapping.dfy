/** Automatic column matching: exact, then containment, then nearest within two
    edits, each target field claimed at most once. */
module SuggestMapping {
  import opened Wrappers
  import opened Sequences
  import opened TargetSchema
  import opened Text
  import Levenshtein

  /** Lower-cases, keeping only the characters that end as an ASCII letter or
      digit. Two characters outside ASCII do: the Kelvin sign and the dotted capital I. */
  function NormalizeChar(c: char): string {
    if 'a' <= c <= 'z' || '0' <= c <= '9' then [c]
    else if 'A' <= c <= 'Z' then [((c - 'A') as int + 'a' as int) as char]
    else if c == '\U{212A}' then "k"
    else if c == '\U{0130}' then "i"
    else ""
  }

  function Normalize(s: string): string {
    if s == [] then "" else NormalizeChar(s[0]) + Normalize(s[1..])
  }

  datatype Candidate = Candidate(key: string, forms: seq<string>)

  function NormalForms(names: seq<string>): seq<string> {
    if names == [] then []
    else (if Normalize(names[0]) != "" then [Normalize(names[0])] else []) + NormalForms(names[1..])
  }

  function CandidateOf(f: Field): Candidate {
    Candidate(f.key, NormalForms([f.key, f.title] + f.aliases))
  }

  function Candidates(fields: seq<Field>): seq<Candidate> {
    seq(|fields|, i requires 0 <= i < |fields| => CandidateOf(fields[i]))
  }

  datatype Confidence = Exact | Fuzzy

  datatype Suggestion = Suggestion(column: string, target: Option<string>, confidence: Option<Confidence>)

  predicate IsExact(c: Candidate, norm: string) {
    norm in c.forms
  }

  predicate IsContained(c: Candidate, norm: string) {
    exists f :: f in c.forms && |f| > 2 && (Contains(norm, f) || Contains(f, norm))
  }

  /** Candidate `k` is unclaimed and the first unclaimed one that matches exactly. */
  ghost predicate FirstExact(cs: seq<Candidate>, used: set<string>, norm: string, k: nat) {
    && k < |cs| && cs[k].key !in used && IsExact(cs[k], norm)
    && forall j :: 0 <= j < k && cs[j].key !in used ==> !IsExact(cs[j], norm)
  }

  ghost predicate FirstContained(cs: seq<Candidate>, used: set<string>, norm: string, k: nat) {
    && k < |cs| && cs[k].key !in used && IsContained(cs[k], norm)
    && forall j :: 0 <= j < k && cs[j].key !in used ==> !IsContained(cs[j], norm)
  }

  ghost predicate NoExact(cs: seq<Candidate>, used: set<string>, norm: string) {
    forall c :: c in cs && c.key !in used ==> !IsExact(c, norm)
  }

  ghost predicate NoContained(cs: seq<Candidate>, used: set<string>, norm: string) {
    forall c :: c in cs && c.key !in used ==> !IsContained(c, norm)
  }

  /** The fewest edits from `norm` to a form of an unclaimed candidate is `d`, and
      `k` is the first candidate that has one. */
  ghost predicate FirstNearest(cs: seq<Candidate>, used: set<string>, norm: string, k: nat, d: nat) {
    && k < |cs| && cs[k].key !in used
    && (exists f :: f in cs[k].forms && Levenshtein.Table(norm, f) == d)
    && NoneNearer(cs, used, norm, d)
    && NoneNearer(cs[..k], used, norm, d + 1)
  }

  ghost predicate NoneNearer(cs: seq<Candidate>, used: set<string>, norm: string, d: nat) {
    forall c, f :: c in cs && c.key !in used && f in c.forms ==> d <= Levenshtein.Table(norm, f)
  }

  /** What the three tiers may answer for a column when `used` is claimed. */
  ghost predicate SuggestionOk(cs: seq<Candidate>, used: set<string>, s: Suggestion) {
    var norm := Normalize(s.column);
    match s.target
    case Some(key) =>
      && norm != "" && key !in used
      && (|| (s.confidence == Some(Exact) && exists k: nat :: FirstExact(cs, used, norm, k) && key == cs[k].key)
          || (s.confidence == Some(Fuzzy) && NoExact(cs, used, norm)
              && exists k: nat :: FirstContained(cs, used, norm, k) && key == cs[k].key)
          || (s.confidence == Some(Fuzzy) && NoExact(cs, used, norm) && NoContained(cs, used, norm) && |norm| > 3
              && exists k: nat, d: nat :: FirstNearest(cs, used, norm, k, d) && d <= 2 && key == cs[k].key))
    case None =>
      && s.confidence.None?
      && (norm == "" || (NoExact(cs, used, norm) && NoContained(cs, used, norm)
                         && (|norm| <= 3 || NoneNearer(cs, used, norm, 3))))
  }

  /** The keys claimed by the first `n` suggestions. */
  ghost function Claimed(out: seq<Suggestion>, n: nat): set<string>
    requires n <= |out|
  {
    set i | 0 <= i < n && out[i].target.Some? :: out[i].target.value
  }

  // ------------------------------------------------------------- the three tiers

  method FindExact(cs: seq<Candidate>, used: set<string>, norm: string) returns (r: Option<nat>)
    ensures r.Some? ==> FirstExact(cs, used, norm, r.value)
    ensures r.None? ==> NoExact(cs, used, norm)
  {
    for k := 0 to |cs|
      invariant forall j :: 0 <= j < k && cs[j].key !in used ==> !IsExact(cs[j], norm)
    {
      if cs[k].key !in used && norm in cs[k].forms {
        return Some(k);
      }
    }
    r := None;
  }

  method FindContained(cs: seq<Candidate>, used: set<string>, norm: string) returns (r: Option<nat>)
    ensures r.Some? ==> FirstContained(cs, used, norm, r.value)
    ensures r.None? ==> NoContained(cs, used, norm)
  {
    for k := 0 to |cs|
      invariant forall j :: 0 <= j < k && cs[j].key !in used ==> !IsContained(cs[j], norm)
    {
      if cs[k].key !in used && IsContained(cs[k], norm) {
        return Some(k);
      }
    }
    r := None;
  }

  /** Nearest among the candidates seen so far, if they had any form at all. */
  ghost predicate BestSoFar(cs: seq<Candidate>, used: set<string>, norm: string, best: Option<(nat, nat)>) {
    match best
    case None => forall c, f :: c in cs && c.key !in used ==> f !in c.forms
    case Some((k, d)) => FirstNearest(cs, used, norm, k, d)
  }

  method NearestForm(forms: seq<string>, norm: string) returns (d: Option<nat>)
    ensures d.None? <==> forms == []
    ensures d.Some? ==> exists f :: f in forms && Levenshtein.Table(norm, f) == d.value
    ensures d.Some? ==> forall f :: f in forms ==> d.value <= Levenshtein.Table(norm, f)
  {
    d := None;
    for j := 0 to |forms|
      invariant d.None? <==> j == 0
      invariant d.Some? ==> exists f :: f in forms && Levenshtein.Table(norm, f) == d.value
      invariant d.Some? ==> forall f :: f in forms[..j] ==> d.value <= Levenshtein.Table(norm, f)
    {
      var dist := Levenshtein.Distance(norm, forms[j]);
      if d.None? || dist < d.value {
        d := Some(dist);
      }
    }
  }

  lemma BestNext(cs: seq<Candidate>, used: set<string>, norm: string, k: nat, best: Option<(nat, nat)>, d: Option<nat>)
    requires k < |cs| && BestSoFar(cs[..k], used, norm, best)
    requires d.None? <==> cs[k].forms == []
    requires d.Some? ==> exists f :: f in cs[k].forms && Levenshtein.Table(norm, f) == d.value
    requires d.Some? ==> forall f :: f in cs[k].forms ==> d.value <= Levenshtein.Table(norm, f)
    ensures BestSoFar(cs[..k + 1], used, norm,
      if cs[k].key !in used && d.Some? && (best.None? || d.value < best.value.1) then Some((k, d.value)) else best)
  {
    var more := cs[..k + 1];
    assert more == cs[..k] + [cs[k]];
    assert more[..k] == cs[..k];
    if cs[k].key !in used && d.Some? && (best.None? || d.value < best.value.1) {
      assert FirstNearest(more, used, norm, k, d.value);
    } else if best.Some? {
      var (b, e) := best.value;
      assert more[..b] == cs[..k][..b];
      assert FirstNearest(more, used, norm, b, e);
    }
  }

  method FindNearest(cs: seq<Candidate>, used: set<string>, norm: string) returns (best: Option<(nat, nat)>)
    ensures BestSoFar(cs, used, norm, best)
  {
    best := None;
    for k := 0 to |cs|
      invariant BestSoFar(cs[..k], used, norm, best)
    {
      var d := NearestForm(cs[k].forms, norm);
      BestNext(cs, used, norm, k, best, d);
      if cs[k].key !in used && d.Some? && (best.None? || d.value < best.value.1) {
        best := Some((k, d.value));
      }
    }
    assert cs[..|cs|] == cs;
  }

  method SuggestOne(cs: seq<Candidate>, used: set<string>, column: string) returns (s: Suggestion)
    ensures s.column == column && SuggestionOk(cs, used, s)
  {
    var norm := Normalize(column);
    var none := Suggestion(column, None, None);
    if norm == "" { return none; }
    var exact := FindExact(cs, used, norm);
    if exact.Some? { return Suggestion(column, Some(cs[exact.value].key), Some(Exact)); }
    var contained := FindContained(cs, used, norm);
    if contained.Some? { return Suggestion(column, Some(cs[contained.value].key), Some(Fuzzy)); }
    var best := FindNearest(cs, used, norm);
    if best.Some? && |norm| > 3 && best.value.1 <= 2 {
      return Suggestion(column, Some(cs[best.value.0].key), Some(Fuzzy));
    }
    return none;
  }

  // -------------------------------------------- the answer, said of the fields

  /** The names a field goes by: its key, its title and its aliases. */
  ghost predicate GoesBy(f: Field, name: string) {
    name == f.key || name == f.title || name in f.aliases
  }

  ghost predicate HasForm(f: Field, form: string) {
    form != "" && exists name :: GoesBy(f, name) && Normalize(name) == form
  }

  /** Field `k` is not claimed by an earlier column. */
  ghost predicate Free(fields: seq<Field>, used: set<string>, k: nat) {
    k < |fields| && fields[k].key !in used
  }

  ghost predicate OccursIn(part: string, s: string) {
    exists k: nat :: StandsAt(s, k, part)
  }

  /** A form of more than two characters contains the column's or is contained in it. */
  ghost predicate Overlaps(f: Field, norm: string) {
    exists form :: HasForm(f, form) && |form| > 2 && (OccursIn(form, norm) || OccursIn(norm, form))
  }

  ghost predicate Within(f: Field, norm: string, d: nat) {
    exists form :: HasForm(f, form) && Levenshtein.Table(norm, form) <= d
  }

  /** `k` is the first free field within `d` edits, and none is within fewer. */
  ghost predicate FirstByDistance(fields: seq<Field>, used: set<string>, norm: string, k: nat, d: nat) {
    && Free(fields, used, k) && Within(fields[k], norm, d)
    && NoneWithin(fields, used, norm, k, d)
    && (d > 0 ==> NoneWithin(fields, used, norm, |fields|, d - 1))
  }

  /** None of the free fields in front of `n` has the form. */
  ghost predicate NoneByName(fields: seq<Field>, used: set<string>, norm: string, n: nat) {
    forall j: nat :: j < n && Free(fields, used, j) ==> !HasForm(fields[j], norm)
  }

  ghost predicate NoneByOverlap(fields: seq<Field>, used: set<string>, norm: string, n: nat) {
    forall j: nat :: j < n && Free(fields, used, j) ==> !Overlaps(fields[j], norm)
  }

  ghost predicate NoneWithin(fields: seq<Field>, used: set<string>, norm: string, n: nat, d: nat) {
    forall j: nat :: j < n && Free(fields, used, j) ==> !Within(fields[j], norm, d)
  }

  ghost predicate FirstByName(fields: seq<Field>, used: set<string>, norm: string, k: nat) {
    Free(fields, used, k) && HasForm(fields[k], norm) && NoneByName(fields, used, norm, k)
  }

  ghost predicate FirstByOverlap(fields: seq<Field>, used: set<string>, norm: string, k: nat) {
    Free(fields, used, k) && Overlaps(fields[k], norm) && NoneByOverlap(fields, used, norm, k)
  }

  ghost predicate Suggests(fields: seq<Field>, k: nat, confidence: Confidence, s: Suggestion) {
    k < |fields| && s.target == Some(fields[k].key) && s.confidence == Some(confidence)
  }

  /** The whole decision for one column: by name, else by overlap, else by distance. */
  ghost predicate FieldSuggestionOk(fields: seq<Field>, used: set<string>, s: Suggestion) {
    var norm, n := Normalize(s.column), |fields|;
    if norm == "" then s.target == None && s.confidence == None
    else if !NoneByName(fields, used, norm, n) then
      exists k: nat :: FirstByName(fields, used, norm, k) && Suggests(fields, k, Exact, s)
    else if !NoneByOverlap(fields, used, norm, n) then
      exists k: nat :: FirstByOverlap(fields, used, norm, k) && Suggests(fields, k, Fuzzy, s)
    else if |norm| > 3 && !NoneWithin(fields, used, norm, n, 2) then
      exists k: nat, d: nat :: FirstByDistance(fields, used, norm, k, d) && d <= 2 && Suggests(fields, k, Fuzzy, s)
    else s.target == None && s.confidence == None
  }

  ghost predicate NamesForm(names: seq<string>, form: string) {
    exists name :: name in names && Normalize(name) == form
  }

  lemma {:induction false} FormsOfNames(names: seq<string>, form: string)
    ensures form in NormalForms(names) <==> form != "" && NamesForm(names, form)
  {
    if names != [] {
      FormsOfNames(names[1..], form);
      NamesFormByHead(names, form);
    }
  }

  lemma NamesFormByHead(names: seq<string>, form: string)
    requires names != []
    ensures NamesForm(names, form) <==> Normalize(names[0]) == form || NamesForm(names[1..], form)
  {
    assert names == [names[0]] + names[1..];
  }

  /** A candidate has the key of its field, and as forms those of the field's names. */
  ghost predicate StandsFor(c: Candidate, f: Field) {
    c.key == f.key && forall form :: form in c.forms <==> HasForm(f, form)
  }

  ghost predicate AllStandFor(cs: seq<Candidate>, fields: seq<Field>) {
    |cs| == |fields| && forall k: nat :: k < |cs| ==> StandsFor(cs[k], fields[k])
  }

  lemma CandidatesStand(fields: seq<Field>)
    ensures AllStandFor(Candidates(fields), fields)
  {
    forall f: Field ensures StandsFor(CandidateOf(f), f) {
      var names := [f.key, f.title] + f.aliases;
      assert forall name :: name in names <==> GoesBy(f, name);
      forall form ensures form in CandidateOf(f).forms <==> HasForm(f, form) {
        FormsOfNames(names, form);
        assert NamesForm(names, form) <==> exists name :: GoesBy(f, name) && Normalize(name) == form;
      }
    }
  }

  lemma ContainedOverlaps(c: Candidate, f: Field, norm: string)
    requires StandsFor(c, f)
    ensures IsContained(c, norm) <==> Overlaps(f, norm)
  {
    forall form ensures Contains(norm, form) <==> OccursIn(form, norm)
                ensures Contains(form, norm) <==> OccursIn(norm, form)
    {
      ContainsAt(norm, form);
      ContainsAt(form, norm);
    }
  }

  lemma ExactIsByName(cs: seq<Candidate>, fields: seq<Field>, used: set<string>, norm: string)
    requires AllStandFor(cs, fields)
    ensures forall k: nat :: FirstExact(cs, used, norm, k) ==> FirstByName(fields, used, norm, k)
    ensures NoExact(cs, used, norm) ==> NoneByName(fields, used, norm, |fields|)
  {
    if NoExact(cs, used, norm) {
      forall j: nat | j < |fields| && Free(fields, used, j) ensures !HasForm(fields[j], norm) {
        assert cs[j] in cs && StandsFor(cs[j], fields[j]);
      }
    }
  }

  lemma ContainedIsByOverlap(cs: seq<Candidate>, fields: seq<Field>, used: set<string>, norm: string)
    requires AllStandFor(cs, fields)
    ensures forall k: nat :: FirstContained(cs, used, norm, k) ==> FirstByOverlap(fields, used, norm, k)
    ensures NoContained(cs, used, norm) ==> NoneByOverlap(fields, used, norm, |fields|)
  {
    forall j: nat | j < |fields| ensures IsContained(cs[j], norm) <==> Overlaps(fields[j], norm) {
      ContainedOverlaps(cs[j], fields[j], norm);
    }
    if NoContained(cs, used, norm) {
      forall j: nat | j < |fields| && Free(fields, used, j) ensures !Overlaps(fields[j], norm) {
        assert cs[j] in cs && StandsFor(cs[j], fields[j]);
      }
    }
  }

  lemma FurtherIsNotWithin(
    cs: seq<Candidate>, fields: seq<Field>, used: set<string>, norm: string, n: nat, d: nat
  )
    requires AllStandFor(cs, fields) && n <= |cs| && NoneNearer(cs[..n], used, norm, d + 1)
    ensures NoneWithin(fields, used, norm, n, d)
  {
    forall j: nat | j < n && Free(fields, used, j) ensures !Within(fields[j], norm, d) {
      assert cs[..n][j] == cs[j] && cs[j] in cs[..n] && StandsFor(cs[j], fields[j]);
      forall form | HasForm(fields[j], form) ensures Levenshtein.Table(norm, form) > d {
        assert form in cs[j].forms;
      }
    }
  }

  lemma NearestIsByDistance(
    cs: seq<Candidate>, fields: seq<Field>, used: set<string>, norm: string, k: nat, d: nat
  )
    requires AllStandFor(cs, fields) && FirstNearest(cs, used, norm, k, d)
    ensures FirstByDistance(fields, used, norm, k, d)
  {
    assert StandsFor(cs[k], fields[k]);
    FurtherIsNotWithin(cs, fields, used, norm, k, d);
    if d > 0 {
      assert cs[..|cs|] == cs;
      FurtherIsNotWithin(cs, fields, used, norm, |cs|, d - 1);
    }
  }

  /** What the tiers answer about the candidates is the decision about the fields. */
  lemma SuggestionIsForFields(cs: seq<Candidate>, fields: seq<Field>, used: set<string>, s: Suggestion)
    requires AllStandFor(cs, fields) && SuggestionOk(cs, used, s)
    ensures FieldSuggestionOk(fields, used, s)
  {
    var norm := Normalize(s.column);
    ExactIsByName(cs, fields, used, norm);
    ContainedIsByOverlap(cs, fields, used, norm);
    if norm != "" && !NoExact(cs, used, norm) {
      var k: nat :| FirstExact(cs, used, norm, k) && s.target == Some(cs[k].key);
      ByNameIsTheAnswer(fields, used, s, k);
    } else if norm != "" && !NoContained(cs, used, norm) {
      var k: nat :| FirstContained(cs, used, norm, k) && s.target == Some(cs[k].key);
      ByOverlapIsTheAnswer(fields, used, s, k);
    } else if norm != "" {
      DistanceIsForFields(cs, fields, used, s);
    }
  }

  lemma ByNameIsTheAnswer(fields: seq<Field>, used: set<string>, s: Suggestion, k: nat)
    requires Normalize(s.column) != "" && FirstByName(fields, used, Normalize(s.column), k)
    requires Suggests(fields, k, Exact, s)
    ensures FieldSuggestionOk(fields, used, s)
  {
    assert !NoneByName(fields, used, Normalize(s.column), |fields|);
  }

  lemma ByOverlapIsTheAnswer(fields: seq<Field>, used: set<string>, s: Suggestion, k: nat)
    requires Normalize(s.column) != "" && NoneByName(fields, used, Normalize(s.column), |fields|)
    requires FirstByOverlap(fields, used, Normalize(s.column), k) && Suggests(fields, k, Fuzzy, s)
    ensures FieldSuggestionOk(fields, used, s)
  {
    assert !NoneByOverlap(fields, used, Normalize(s.column), |fields|);
  }

  lemma DistanceIsForFields(cs: seq<Candidate>, fields: seq<Field>, used: set<string>, s: Suggestion)
    requires AllStandFor(cs, fields) && SuggestionOk(cs, used, s) && Normalize(s.column) != ""
    requires NoExact(cs, used, Normalize(s.column)) && NoContained(cs, used, Normalize(s.column))
    requires NoneByName(fields, used, Normalize(s.column), |fields|)
    requires NoneByOverlap(fields, used, Normalize(s.column), |fields|)
    ensures FieldSuggestionOk(fields, used, s)
  {
    var norm := Normalize(s.column);
    if s.target.Some? {
      var k: nat, d: nat :| FirstNearest(cs, used, norm, k, d) && d <= 2 && s.target.value == cs[k].key;
      NearestIsByDistance(cs, fields, used, norm, k, d);
      assert Within(fields[k], norm, 2) && Suggests(fields, k, Fuzzy, s);
      assert !NoneWithin(fields, used, norm, |fields|, 2);
    } else if |norm| > 3 {
      assert cs[..|cs|] == cs;
      FurtherIsNotWithin(cs, fields, used, norm, |fields|, 2);
    }
  }

  /** One suggestion for each column, in source order; no field is claimed twice. */
  method Suggest(columns: seq<string>, fields: seq<Field>) returns (out: seq<Suggestion>)
    ensures |out| == |columns|
    ensures forall i :: 0 <= i < |out| ==> out[i].column == columns[i]
    ensures forall i :: 0 <= i < |out| ==> SuggestionOk(Candidates(fields), Claimed(out, i), out[i])
    ensures forall i :: 0 <= i < |out| ==> FieldSuggestionOk(fields, Claimed(out, i), out[i])
  {
    var cs := Candidates(fields);
    CandidatesStand(fields);
    var used: set<string> := {};
    out := [];
    for n := 0 to |columns|
      invariant |out| == n && used == Claimed(out, n)
      invariant forall i :: 0 <= i < n ==> out[i].column == columns[i]
      invariant forall i :: 0 <= i < n ==> SuggestionOk(cs, Claimed(out, i), out[i])
      invariant forall i :: 0 <= i < n ==> FieldSuggestionOk(fields, Claimed(out, i), out[i])
    {
      var s := SuggestOne(cs, used, columns[n]);
      ClaimedKeep(out, s);
      SuggestionIsForFields(cs, fields, used, s);
      out := out + [s];
      if s.target.Some? {
        used := used + {s.target.value};
      }
    }
  }

  lemma ClaimedKeep(out: seq<Suggestion>, s: Suggestion)
    ensures forall i :: 0 <= i <= |out| ==> Claimed(out + [s], i) == Claimed(out, i)
    ensures Claimed(out + [s], |out| + 1)
         == Claimed(out, |out|) + (if s.target.Some? then {s.target.value} else {})
  {
    var more := out + [s];
    forall i | 0 <= i <= |out| ensures Claimed(more, i) == Claimed(out, i) {
      forall k | 0 <= k < i ensures more[k] == out[k] {}
    }
    assert more[|out|] == s;
    forall v | v in Claimed(more, |more|) ensures v in Claimed(out, |out|) || s.target == Some(v) {
      var k :| 0 <= k < |more| && more[k].target == Some(v);
      if k < |out| { assert out[k].target == Some(v); }
    }
    forall v | v in Claimed(out, |out|) ensures v in Claimed(more, |more|) {
      var k :| 0 <= k < |out| && out[k].target == Some(v);
      assert more[k].target == Some(v);
    }
  }

  /** Two columns never get the same field. */
  lemma TargetsAreDistinct(cs: seq<Candidate>, out: seq<Suggestion>, i: nat, j: nat)
    requires forall n :: 0 <= n < |out| ==> SuggestionOk(cs, Claimed(out, n), out[n])
    requires i < j < |out| && out[i].target.Some? && out[j].target.Some?
    ensures out[i].target != out[j].target
  {
    assert SuggestionOk(cs, Claimed(out, j), out[j]);
    assert out[i].target.value in Claimed(out, j);
  }

  /** A suggested key is a field of the target. */
  lemma TargetsAreFields(fields: seq<Field>, used: set<string>, s: Suggestion)
    requires SuggestionOk(Candidates(fields), used, s) && s.target.Some?
    ensures exists k :: 0 <= k < |fields| && fields[k].key == s.target.value
  {
    var cs := Candidates(fields);
    var k: nat :| k < |cs| && s.target.value == cs[k].key;
  }

  // ---------------------------------------------------------- normal forms

  predicate NormalChar(c: char) {
    'a' <= c <= 'z' || '0' <= c <= '9'
  }

  /** Lower-case letters and digits are kept, upper-case letters lowered, and all else is
      dropped but for two characters whose lower case begins with an ASCII letter. */
  lemma NormalizeOne(c: char)
    ensures var n := c as int;
      Normalize([c]) ==
        if 97 <= n <= 122 || 48 <= n <= 57 then [c]
        else if 65 <= n <= 90 then [(n + 32) as char]
        else if n == 8490 then "k"
        else if n == 304 then "i"
        else ""
  {
    assert [c][1..] == [];
    ConcatEmpty(NormalizeChar(c));
  }

  lemma {:induction false} NormalizeAppend(s: string, t: string)
    ensures Normalize(s + t) == Normalize(s) + Normalize(t)
    decreases s
  {
    if s == [] {
      assert s + t == t;
    } else {
      assert (s + t)[1..] == s[1..] + t;
      NormalizeAppend(s[1..], t);
    }
  }

  /** Normal forms hold nothing but lower-case letters and digits, and normalising
      again changes nothing. */
  lemma {:induction false} NormalizeIsNormal(s: string)
    ensures forall c :: c in Normalize(s) ==> NormalChar(c)
    ensures Normalize(Normalize(s)) == Normalize(s)
  {
    if s != [] {
      NormalizeIsNormal(s[1..]);
      var first := NormalizeChar(s[0]);
      NormalizeAppend(first, Normalize(s[1..]));
      assert first != [] ==> first == [first[0]] && NormalChar(first[0]) && first[1..] == [];
    }
  }

  /** A character outside letters and digits may stand anywhere, or be left out. */
  lemma NormalizeDrops(s: string, c: char, t: string)
    requires NormalizeChar(c) == ""
    ensures Normalize(s + [c] + t) == Normalize(s + t)
  {
    NormalizeAppend(s + [c], t);
    NormalizeAppend(s, [c]);
    NormalizeAppend(s, t);
  }

  /** Casing and the choice of separators never tell two names apart. */
  lemma {:induction false} NormalizeIgnores(s: string, t: string)
    requires |s| == |t|
    requires forall i :: 0 <= i < |s| ==>
      || s[i] == t[i]
      || ('A' <= s[i] <= 'Z' && t[i] as int == s[i] as int + 32)
      || (NormalizeChar(s[i]) == "" && NormalizeChar(t[i]) == "")
    ensures Normalize(s) == Normalize(t)
  {
    if s != [] {
      NormalizeIgnores(s[1..], t[1..]);
    }
  }
}
