/** Escaping attribute values by four replacements in a row, and undoing it by four more. */
module Escaping {

  /** Replaces every occurrence of `pattern`, from left to right. */
  function Replace(s: string, pattern: string, with: string): string
    requires pattern != []
  {
    if |s| < |pattern| then s
    else if s[..|pattern|] == pattern then with + Replace(s[|pattern|..], pattern, with)
    else [s[0]] + Replace(s[1..], pattern, with)
  }

  function Escape(value: string): string {
    Replace(Replace(Replace(Replace(value, "&", "&amp;"), "\"", "&quot;"), "<", "&lt;"), ">", "&gt;")
  }

  function Unescape(value: string): string {
    Replace(Replace(Replace(Replace(value, "&quot;", "\""), "&lt;", "<"), "&gt;", ">"), "&amp;", "&")
  }

  // --- Values with some characters escaped --------------------------------------------

  predicate Special(c: char) { c == '&' || c == '"' || c == '<' || c == '>' }

  function Name(c: char): (name: string)
    requires Special(c)
    ensures |name| >= 4 && name[0] == '&'
    ensures forall i :: 0 < i < |name| ==> !Special(name[i]) && name[i] != '\n'
  {
    if c == '&' then "&amp;" else if c == '"' then "&quot;" else if c == '<' then "&lt;" else "&gt;"
  }

  lemma NamesDiffer(a: char, b: char)
    requires Special(a) && Special(b) && a != b
    ensures Name(a)[1] != Name(b)[1]
  {}

  function Token(c: char, escaped: set<char>): (t: string)
    ensures t != []
  {
    if c in escaped && Special(c) then Name(c) else [c]
  }

  /** The value with just the characters in `escaped` replaced by their names. */
  function Tokens(s: string, escaped: set<char>): string {
    if s == [] then [] else Token(s[0], escaped) + Tokens(s[1..], escaped)
  }

  /** A pattern cannot start where its first character does not occur. */
  lemma {:induction false} ReplaceSkips(a: string, rest: string, pattern: string, with: string)
    requires pattern != [] && pattern[0] !in a
    ensures Replace(a + rest, pattern, with) == a + Replace(rest, pattern, with)
  {
    hide Replace;
    if a == [] {
      assert a + rest == rest;
    } else {
      ReplaceSkips(a[1..], rest, pattern, with);
      var all := a + rest;
      assert all[0] == a[0] && all[1..] == a[1..] + rest;
      ReplaceFirst(all, pattern, with);
      assert [a[0]] + (a[1..] + Replace(rest, pattern, with)) == a + Replace(rest, pattern, with);
    }
  }

  /** A first character that is not the pattern's is passed over. */
  lemma ReplaceFirst(s: string, pattern: string, with: string)
    requires s != [] && pattern != [] && s[0] != pattern[0]
    ensures Replace(s, pattern, with) == [s[0]] + Replace(s[1..], pattern, with)
  {
    if |s| < |pattern| {
      assert Replace(s[1..], pattern, with) == s[1..];
    } else {
      assert s[..|pattern|][0] == s[0];
    }
  }

  lemma ReplaceHits(pattern: string, rest: string, with: string)
    requires pattern != []
    ensures Replace(pattern + rest, pattern, with) == with + Replace(rest, pattern, with)
  {}

  /** A name other than the pattern is passed over. */
  lemma ReplaceSkipsName(name: string, rest: string, pattern: string, with: string)
    requires |pattern| >= 2 && |name| >= 2
    requires name[1] != pattern[1] && pattern[0] !in name[1..]
    ensures Replace(name + rest, pattern, with) == name + Replace(rest, pattern, with)
  {
    var all := name + rest;
    ReplaceSkips(name[1..], rest, pattern, with);
    assert all[1..] == name[1..] + rest;
    if |all| < |pattern| {
      assert name[1..] + rest == name[1..] + Replace(rest, pattern, with);
    } else {
      assert all[..|pattern|] != pattern by { assert all[..|pattern|][1] == name[1]; }
      assert Replace(all, pattern, with) == [name[0]] + Replace(name[1..] + rest, pattern, with);
    }
  }

  // --- One replacement ----------------------------------------------------------------

  /** Escaping one more character; the ampersand goes first, so names in the text are not hit. */
  lemma {:induction false} EscapeStep(s: string, escaped: set<char>, c: char)
    requires Special(c) && c !in escaped && (c == '&' ==> escaped == {})
    ensures Replace(Tokens(s, escaped), [c], Name(c)) == Tokens(s, escaped + {c})
  {
    if s != [] {
      hide Name;
      var token, rest := Token(s[0], escaped), Tokens(s[1..], escaped);
      EscapeStep(s[1..], escaped, c);
      if s[0] == c {
        ReplaceHits([c], rest, Name(c));
      } else {
        assert c !in token;
        ReplaceSkips(token, rest, [c], Name(c));
      }
    }
  }

  /** Unescaping one character; the ampersand comes last, so no name is made up on the way. */
  lemma {:induction false} UnescapeStep(s: string, escaped: set<char>, c: char)
    requires Special(c) && c in escaped && '&' in escaped && (c == '&' ==> escaped == {'&'})
    ensures Replace(Tokens(s, escaped), Name(c), [c]) == Tokens(s, escaped - {c})
  {
    if s != [] {
      hide Name;
      var token, rest := Token(s[0], escaped), Tokens(s[1..], escaped);
      UnescapeStep(s[1..], escaped, c);
      if s[0] == c {
        ReplaceHits(Name(c), rest, [c]);
      } else if s[0] in escaped && Special(s[0]) {
        NamesDiffer(s[0], c);
        ReplaceSkipsName(token, rest, Name(c), [c]);
      } else {
        ReplaceSkips(token, rest, Name(c), [c]);
      }
    }
  }

  lemma {:induction false} NothingEscaped(s: string)
    ensures Tokens(s, {}) == s
  {
    if s != [] { NothingEscaped(s[1..]); }
  }

  /** All four replacements together replace each special character by its name. */
  lemma EscapeIsTokens(s: string)
    ensures Escape(s) == Tokens(s, {'&', '"', '<', '>'})
  {
    hide Replace, Tokens;
    NothingEscaped(s);
    EscapeStep(s, {}, '&');
    EscapeStep(s, {'&'}, '"');
    EscapeStep(s, {'&', '"'}, '<');
    EscapeStep(s, {'&', '"', '<'}, '>');
    assert {} + {'&'} == {'&'} && {'&'} + {'"'} == {'&', '"'};
    assert {'&', '"'} + {'<'} == {'&', '"', '<'} && {'&', '"', '<'} + {'>'} == {'&', '"', '<', '>'};
  }

  /** Unescaping what was escaped gives the value back. */
  lemma UnescapeEscape(s: string)
    ensures Unescape(Escape(s)) == s
  {
    hide Replace, Tokens, Escape;
    EscapeIsTokens(s);
    NothingEscaped(s);
    var all := {'&', '"', '<', '>'};
    UnescapeStep(s, all, '"');
    UnescapeStep(s, {'&', '<', '>'}, '<');
    UnescapeStep(s, {'&', '>'}, '>');
    UnescapeStep(s, {'&'}, '&');
    assert all - {'"'} == {'&', '<', '>'} && {'&', '<', '>'} - {'<'} == {'&', '>'};
    assert {'&', '>'} - {'>'} == {'&'} && {'&'} - {'&'} == {};
  }

  lemma {:induction false} TokensContain(s: string, c: char)
    requires !Special(c)
    ensures '"' !in Tokens(s, {'&', '"', '<', '>'}) && '<' !in Tokens(s, {'&', '"', '<', '>'})
    ensures c == '\n' ==> (c in Tokens(s, {'&', '"', '<', '>'}) <==> c in s)
  {
    if s != [] {
      hide Name;
      TokensContain(s[1..], c);
    }
  }

  /** An escaped value holds no quote and no tag, and a line break only where the value does. */
  lemma EscapedContains(s: string)
    ensures '"' !in Escape(s) && '<' !in Escape(s)
    ensures '\n' in Escape(s) <==> '\n' in s
  {
    hide Tokens, Escape;
    EscapeIsTokens(s);
    TokensContain(s, '\n');
  }
}
