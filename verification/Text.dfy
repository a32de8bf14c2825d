/** Strings as the source's regular expressions and string methods see them. */
module Text {

  predicate Contains(s: string, part: string) {
    exists k :: 0 <= k <= |s| && part <= s[k..]
  }

  /** The class `\s`, which is also what `trim` removes. */
  predicate IsSpace(c: char) {
    || c == ' ' || '\t' <= c <= '\r' || c == '\U{00A0}' || c == '\U{1680}'
    || '\U{2000}' <= c <= '\U{200A}' || c == '\U{2028}' || c == '\U{2029}'
    || c == '\U{202F}' || c == '\U{205F}' || c == '\U{3000}' || c == '\U{FEFF}'
  }

  predicate AllSpace(s: string) {
    forall i :: 0 <= i < |s| ==> IsSpace(s[i])
  }

  function SkipSpace(s: string): (r: string)
    ensures |r| <= |s|
  {
    if s != [] && IsSpace(s[0]) then SkipSpace(s[1..]) else s
  }

  function TrimEnd(s: string): string {
    if s != [] && IsSpace(s[|s| - 1]) then TrimEnd(s[..|s| - 1]) else s
  }

  function Trim(s: string): string {
    TrimEnd(SkipSpace(s))
  }

  /** Neither end is white space, so trimming leaves it alone. */
  predicate Trimmed(s: string) {
    s != [] ==> !IsSpace(s[0]) && !IsSpace(s[|s| - 1])
  }

  function Upper(c: char): char {
    if 'a' <= c <= 'z' then ((c - 'a') as int + 'A' as int) as char else c
  }

  /** `s` is the upper-case keyword `k`, in any casing. */
  predicate EqualFold(s: string, k: string) {
    |s| == |k| && forall i :: 0 <= i < |s| ==> Upper(s[i]) == k[i]
  }

  lemma {:induction false} SkipSpaces(w: string, s: string)
    requires AllSpace(w) && (s != [] ==> !IsSpace(s[0]))
    ensures SkipSpace(w + s) == s
    decreases w
  {
    if w == [] {
      assert w + s == s;
    } else {
      assert (w + s)[1..] == w[1..] + s;
      SkipSpaces(w[1..], s);
    }
  }

  lemma {:induction false} TrimEndSpaces(s: string, w: string)
    requires AllSpace(w) && (s != [] ==> !IsSpace(s[|s| - 1]))
    ensures TrimEnd(s + w) == s
    decreases w
  {
    if w == [] {
      assert s + w == s;
    } else {
      assert (s + w)[..|s + w| - 1] == s + w[..|w| - 1];
      TrimEndSpaces(s, w[..|w| - 1]);
    }
  }

  lemma TrimSpaces(w1: string, s: string, w2: string)
    requires AllSpace(w1) && AllSpace(w2) && s != [] && Trimmed(s)
    ensures Trim(w1 + s + w2) == s
  {
    assert w1 + s + w2 == w1 + (s + w2);
    SkipSpaces(w1, s + w2);
    TrimEndSpaces(s, w2);
  }

  // ------------------------------------------------ what these mean, character-wise

  /** The characters of `part` are those of `s` from position `k` on. */
  ghost predicate StandsAt(s: string, k: nat, part: string) {
    k + |part| <= |s| && forall j :: 0 <= j < |part| ==> s[k + j] == part[j]
  }

  lemma ContainsAt(s: string, part: string)
    ensures Contains(s, part) <==> exists k: nat :: StandsAt(s, k, part)
  {
    if Contains(s, part) {
      var k :| 0 <= k <= |s| && part <= s[k..];
      assert StandsAt(s, k, part);
    }
    if k: nat :| StandsAt(s, k, part) {
      assert part <= s[k..];
    }
  }

  /** White space by code point, as ECMAScript lists it. */
  lemma SpaceCodes(c: char)
    ensures var n := c as int;
      IsSpace(c) <==> n in {9, 10, 11, 12, 13, 32, 160, 5760, 8232, 8233, 8239, 8287, 12288, 65279} || 8192 <= n <= 8202
  {
  }

  /** A keyword matches in any casing of its ASCII letters, and nothing else does. */
  lemma FoldIgnoresCase(s: string, k: string)
    requires forall i :: 0 <= i < |k| ==> 'A' <= k[i] <= 'Z'
    ensures EqualFold(s, k) <==>
      |s| == |k| && forall i :: 0 <= i < |s| ==> s[i] == k[i] || s[i] as int == k[i] as int + 32
  {
  }
}
