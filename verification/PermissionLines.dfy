/** The lines of a permission file: how text splits into them, and what each one says. */
module PermissionLines {
  import opened Wrappers
  import opened Text
  import opened Escaping

  // --- Lines --------------------------------------------------------------------------

  /** The first place from `from` on that holds `c`, or the length. */
  function IndexOf(s: string, c: char, from: nat): (i: nat)
    requires from <= |s|
    ensures from <= i <= |s|
    ensures i < |s| ==> s[i] == c
    ensures forall j :: from <= j < i ==> s[j] != c
    decreases |s| - from
  {
    if from == |s| || s[from] == c then from else IndexOf(s, c, from + 1)
  }

  /** A line without the carriage return that may end it. */
  function WithoutReturn(line: string): string {
    if line != [] && line[|line| - 1] == '\r' then line[..|line| - 1] else line
  }

  function Lines(text: string): seq<string> {
    if text == [] then []
    else
      var end := IndexOf(text, '\n', 0);
      if end == |text| then [text]
      else [WithoutReturn(text[..end])] + Lines(text[end + 1..])
  }

  lemma FirstLine(line: string, rest: string)
    requires '\n' !in line
    ensures Lines(line + "\n" + rest) == [WithoutReturn(line)] + Lines(rest)
  {
    var text := line + "\n" + rest;
    assert text[|line|] == '\n';
    assert IndexOf(text, '\n', 0) == |line| by {
      var end := IndexOf(text, '\n', 0);
      if end < |line| { assert false; }
    }
    assert text[..|line|] == line && text[|line| + 1..] == rest;
  }

  // --- Tags ---------------------------------------------------------------------------

  datatype Tag =
    | GroupsStart | GroupsEnd | UsersStart | UsersEnd | GroupEnd | UserEnd
    | GroupTag(name: string) | UserTag(uuid: string) | ParentTag(name: string) | NodeTag(value: string)
    | NoTag

  /** Where `needle` first occurs from `from` on. */
  function Find(s: string, needle: string, from: nat): (at: Option<nat>)
    ensures at.Some? ==> from <= at.value && at.value + |needle| <= |s| && s[at.value..at.value + |needle|] == needle
    decreases |s| - from
  {
    if from + |needle| > |s| then None
    else if s[from..from + |needle|] == needle then Some(from)
    else Find(s, needle, from + 1)
  }

  /** The unescaped text between `needle`, which ends in a quote, and the next quote. */
  function Attribute(line: string, needle: string): Option<string> {
    var at := Find(line, needle, 0);
    if at.None? then None
    else
      var start := at.value + |needle|;
      var end := IndexOf(line, '"', start);
      if end == |line| then None else Some(Unescape(line[start..end]))
  }

  function TagOr(attribute: Option<string>, tag: string -> Tag): Tag {
    if attribute.Some? then tag(attribute.value) else NoTag
  }

  /** What a line, trimmed, says. */
  function TagOf(line: string): Tag {
    if line == "<Groups>" then GroupsStart
    else if line == "</Groups>" then GroupsEnd
    else if line == "<Users>" then UsersStart
    else if line == "</Users>" then UsersEnd
    else if line == "</Group>" then GroupEnd
    else if line == "</User>" then UserEnd
    else if "<Group " <= line then TagOr(Attribute(line, "name=\""), name => GroupTag(name))
    else if "<User " <= line then TagOr(Attribute(line, "uuid=\""), uuid => UserTag(uuid))
    else if "<Parent " <= line then TagOr(Attribute(line, "name=\""), name => ParentTag(name))
    else if "<Node " <= line then TagOr(Attribute(line, "value=\""), value => NodeTag(value))
    else NoTag
  }

  // --- Reading a written tag ----------------------------------------------------------

  lemma {:induction false} FindFirst(s: string, needle: string, from: nat, at: nat)
    requires from <= at && at + |needle| <= |s| && s[at..at + |needle|] == needle
    requires |needle| >= 2 && forall i :: from <= i < at ==> s[i] != needle[0] || s[i + 1] != needle[1]
    ensures Find(s, needle, from) == Some(at)
    decreases at - from
  {
    if from < at {
      var here := s[from..from + |needle|];
      assert here[0] == s[from] && here[1] == s[from + 1];
      FindFirst(s, needle, from + 1, at);
    }
  }

  /** An escaped value between quotes is read back. */
  lemma AttributeRead(front: string, needle: string, value: string, back: string)
    requires |needle| >= 2
    requires forall i :: 0 <= i < |front| ==> front[i] != needle[0] || (i + 1 < |front| && front[i + 1] != needle[1])
    ensures Attribute(front + needle + Escape(value) + "\"" + back, needle) == Some(value)
  {
    hide Escape, Unescape;
    var line := front + needle + Escape(value) + "\"" + back;
    var start := |front| + |needle|;
    var end := start + |Escape(value)|;
    assert line[|front|..start] == needle;
    assert line == front + (needle + Escape(value) + "\"" + back);
    FindFirst(line, needle, 0, |front|);
    EscapedContains(value);
    assert line[end] == '"' && line[start..end] == Escape(value);
    assert IndexOf(line, '"', start) == end by {
      var i := IndexOf(line, '"', start);
      if i < end { assert false; }
    }
    UnescapeEscape(value);
  }

  /** A line with a single quote names nothing. */
  lemma OneQuoteNoAttribute(line: string, quote: nat, needle: string)
    requires quote < |line| && forall i :: 0 <= i < |line| && i != quote ==> line[i] != '"'
    requires needle != [] && needle[|needle| - 1] == '"'
    ensures Attribute(line, needle) == None
  {}

  lemma OneQuoteNoTag(line: string, quote: nat)
    requires quote < |line| && line[quote] == '"'
    requires forall i :: 0 <= i < |line| && i != quote ==> line[i] != '"'
    ensures TagOf(line) == NoTag
  {
    hide Attribute;
    OneQuoteNoAttribute(line, quote, "name=\"");
    OneQuoteNoAttribute(line, quote, "uuid=\"");
    OneQuoteNoAttribute(line, quote, "value=\"");
  }

  lemma NotATag(line: string)
    requires '<' !in line
    ensures TagOf(line) == NoTag
  {
    hide Attribute;
    if line != [] { assert line[0] != '<'; }
  }

  // --- Trimming -----------------------------------------------------------------------

  /** Trimming takes away whitespace at both ends and nothing else. */
  lemma TrimIsPart(s: string) returns (a: nat, b: nat)
    ensures a <= b <= |s| && Trim(s) == s[a..b]
    ensures forall i :: 0 <= i < |s| && !(a <= i < b) ==> IsWhitespace(s[i])
  {
    hide IsWhitespace;
    var t := TrimStart(s);
    a := |s| - |t|;
    b := a + |TrimEnd(t)|;
    forall i | b <= i < |s| ensures IsWhitespace(s[i]) { assert s[i] == t[i - a]; }
  }

  predicate Blank(s: string) { forall i :: 0 <= i < |s| ==> s[i] == ' ' }

  lemma {:induction false} IndentTrimmed(indent: string, line: string)
    requires Blank(indent) && line != [] && !IsWhitespace(line[0])
    ensures TrimStart(indent + line) == line
  {
    if indent == [] {
      assert indent + line == line;
    } else {
      var all := indent + line;
      assert all[0] == ' ' && all[1..] == indent[1..] + line;
      IndentTrimmed(indent[1..], line);
    }
  }

  lemma TrimIndented(indent: string, line: string)
    requires Blank(indent)
    requires line != [] && !IsWhitespace(line[0]) && !IsWhitespace(line[|line| - 1])
    ensures Trim(indent + line) == line
  {
    hide IsWhitespace, TrimStart;
    IndentTrimmed(indent, line);
  }

  /** An indented line that ends in '>' is read as it was written. */
  lemma ReadIndented(indent: string, line: string)
    requires Blank(indent)
    requires line != [] && line[0] == '<' && line[|line| - 1] == '>'
    ensures Trim(WithoutReturn(indent + line)) == line
  {
    hide Trim;
    TrimIndented(indent, line);
    assert (indent + line)[|indent + line| - 1] == '>';
  }

  lemma JunkWithoutTag(line: string)
    requires '<' !in line
    ensures TagOf(Trim(WithoutReturn(line))) == NoTag
  {
    hide Trim, TagOf;
    var kept := WithoutReturn(line);
    var a, b := TrimIsPart(kept);
    NotATag(Trim(kept));
  }

  /** The start of an entry whose value breaks off before its closing quote. */
  lemma BrokenWithoutTag(line: string, quote: nat)
    requires quote < |line| && line[quote] == '"'
    requires forall i :: 0 <= i < |line| && i != quote ==> line[i] != '"'
    ensures TagOf(Trim(WithoutReturn(line))) == NoTag
  {
    hide Trim, TagOf;
    var kept := WithoutReturn(line);
    assert quote < |kept| && kept[quote] == '"';
    var a, b := TrimIsPart(kept);
    assert a <= quote < b;
    OneQuoteNoTag(Trim(kept), quote - a);
  }
}
