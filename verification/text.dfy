/** Character-level helpers for nation-name matching: lower-casing and prefix tests. */
module Text {

  /** The ASCII capital letters, the only characters this model lower-cases. */
  predicate IsUpper(c: char) {
    'A' <= c <= 'Z'
  }

  /** Lower-cases one character: an ASCII capital becomes its small letter,
      every other character is kept. */
  function Lower(c: char): (r: char)
    ensures !IsUpper(r)
    ensures !IsUpper(c) ==> r == c
    ensures IsUpper(c) ==> r as int == c as int + 32
  {
    if IsUpper(c) then (c as int - 'A' as int + 'a' as int) as char else c
  }

  /** Lower-cases a whole string, character by character. */
  function LowerStr(s: string): (r: string)
    ensures |r| == |s|
    ensures forall i :: 0 <= i < |s| ==> r[i] == Lower(s[i])
    ensures forall i :: 0 <= i < |r| ==> !IsUpper(r[i])
  {
    if s == [] then [] else [Lower(s[0])] + LowerStr(s[1..])
  }

  /** Whether `s` begins with `prefix` (Rust's `str::starts_with`). */
  predicate StartsWith(s: string, prefix: string) {
    |prefix| <= |s| && s[..|prefix|] == prefix
  }

  /** The matching test the registration command applies to each nation: the
      nation's name, lower-cased, starts with the (already lower-cased) query. */
  predicate NameMatches(name: string, query: string) {
    StartsWith(LowerStr(name), query)
  }

  /** An independent statement of case-insensitive prefix matching: the query is
      no longer than the name, and position by position the two agree once both
      characters are lower-cased. */
  predicate CaseInsensitivePrefix(query: string, name: string) {
    |query| <= |name| && forall i :: 0 <= i < |query| ==> Lower(query[i]) == Lower(name[i])
  }

  /** A name matches a lower-cased query when its first characters, lower-cased,
      spell the query. */
  lemma MatchByCharacters(name: string, query: string)
    requires |query| <= |name|
    requires forall i :: 0 <= i < |query| ==> Lower(name[i]) == query[i]
    ensures NameMatches(name, query)
  {
    assert LowerStr(name)[..|query|] == query;
  }

  /** Lower-casing the query before matching (as the command does) and
      lower-casing each name inside the filter make the match exactly
      case-insensitive prefix matching. */
  lemma MatchIsCaseInsensitive(name: string, rawQuery: string)
    ensures NameMatches(name, LowerStr(rawQuery)) <==> CaseInsensitivePrefix(rawQuery, name)
  {
  }

  /** A query that still holds a capital letter matches no name at all, since
      every lower-cased name is free of capitals: the caller's lower-casing of
      the query is what makes capitals in the query harmless. */
  lemma UnloweredQueryMatchesNothing(name: string, query: string, i: nat)
    requires i < |query| && IsUpper(query[i])
    ensures !NameMatches(name, query)
  {
  }

  /** Matching is by prefix, not by substring: "er" matches "Ermor" but not
      "Early Ermor", although the lower-cased "early ermor" contains "er". */
  lemma PrefixNotSubstring()
    ensures NameMatches("Ermor", "er")
    ensures !NameMatches("Early Ermor", "er")
    ensures LowerStr("Early Ermor")[6..8] == "er"
  {
    assert LowerStr("Ermor")[..2] == "er";
    assert LowerStr("Early Ermor")[1] == 'a';
  }
}
