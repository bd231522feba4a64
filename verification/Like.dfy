/** Escaping a user's text so that LIKE matches it literally, against the meaning of LIKE itself. */
module Like {

  const ESCAPE := '\\'

  predicate Special(c: char) { c == ESCAPE || c == '%' || c == '_' }

  function EscapeChar(c: char): string { if Special(c) then [ESCAPE, c] else [c] }

  /** One pass over the text; every metacharacter, the escape character included, is escaped. */
  function EscapeLike(s: string): string {
    if s == [] then [] else EscapeChar(s[0]) + EscapeLike(s[1..])
  }

  /** `text LIKE pattern ESCAPE '\'`: a percent sign matches any run of characters, an underscore
      any one, an escaped character itself. A pattern that ends in a bare escape matches nothing. */
  ghost predicate Matches(pattern: string, text: string)
    decreases |pattern|
  {
    if pattern == [] then text == []
    else if pattern[0] == '%' then exists k :: 0 <= k <= |text| && Matches(pattern[1..], text[k..])
    else if pattern[0] == ESCAPE then
      |pattern| >= 2 && text != [] && text[0] == pattern[1] && Matches(pattern[2..], text[1..])
    else text != [] && (pattern[0] == '_' || text[0] == pattern[0]) && Matches(pattern[1..], text[1..])
  }

  /** An escaped character in front of a pattern consumes exactly that character. */
  lemma EscapedChar(c: char, rest: string, text: string)
    ensures Matches(EscapeChar(c) + rest, text) <==> text != [] && text[0] == c && Matches(rest, text[1..])
  {
    assert (EscapeChar(c) + rest)[|EscapeChar(c)|..] == rest;
  }

  /** An escaped text in front of any pattern consumes exactly that text. */
  lemma {:induction false} EscapedPrefix(s: string, rest: string, text: string)
    ensures Matches(EscapeLike(s) + rest, text) <==> s <= text && Matches(rest, text[|s|..])
  {
    if s == [] {
      assert EscapeLike(s) + rest == rest && text[0..] == text;
    } else {
      var tail := EscapeLike(s[1..]) + rest;
      assert EscapeLike(s) + rest == EscapeChar(s[0]) + tail;
      EscapedChar(s[0], tail, text);
      if text != [] && text[0] == s[0] {
        EscapedPrefix(s[1..], rest, text[1..]);
        assert s == [s[0]] + s[1..] && text == [s[0]] + text[1..];
        assert s <= text <==> s[1..] <= text[1..];
        assert s <= text ==> text[1..][|s| - 1..] == text[|s|..];
      }
    }
  }

  /** The escaped text as a whole pattern matches that text and nothing else. */
  lemma {:induction false} EscapedMatchesItself(s: string, text: string)
    ensures Matches(EscapeLike(s), text) <==> text == s
  {
    EscapedPrefix(s, [], text);
    assert EscapeLike(s) + [] == EscapeLike(s);
  }

  ghost predicate Contains(text: string, s: string) {
    exists k :: 0 <= k <= |text| && s <= text[k..]
  }

  lemma PercentMatchesAll(text: string)
    ensures Matches("%", text)
  {
    assert "%"[1..] == [] && text[|text|..] == [];
    assert Matches("%"[1..], text[|text|..]);
  }

  /** Between two percent signs it matches exactly the texts that contain it. */
  lemma {:induction false} SearchMatchesSubstrings(s: string, text: string)
    ensures Matches("%" + EscapeLike(s) + "%", text) <==> Contains(text, s)
  {
    var pattern := "%" + EscapeLike(s) + "%";
    assert pattern[1..] == EscapeLike(s) + "%";
    forall k | 0 <= k <= |text|
      ensures Matches(pattern[1..], text[k..]) <==> s <= text[k..]
    {
      EscapedPrefix(s, "%", text[k..]);
      if s <= text[k..] {
        PercentMatchesAll(text[k..][|s|..]);
      }
    }
  }

  /** Distinct texts have distinct patterns, so no two searches are confused. */
  lemma {:induction false} EscapeInjective(s: string, t: string)
    requires EscapeLike(s) == EscapeLike(t)
    ensures s == t
  {
    EscapedMatchesItself(s, s);
    EscapedMatchesItself(t, s);
  }
}
