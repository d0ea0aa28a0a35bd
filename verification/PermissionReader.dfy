/** Reading a permission file line by line, and what reading the lines of a written one does. */
module PermissionReader {
  import opened Wrappers
  import opened Text
  import opened Escaping
  import opened PermissionLines
  import opened Permissions

  // --- Reading ------------------------------------------------------------------------

  /** The reader after some lines. */
  datatype Reader = Reader(
    store: PermissionStore, group: Option<string>, user: Option<string>, inGroups: bool, inUsers: bool)

  const START: Reader := Reader(PermissionStore(map[], map[]), None, None, false, false)

  function AddGroupNode(groups: Groups, name: string, node: string): Groups
    requires name in groups
  {
    groups[name := groups[name].(nodes := groups[name].nodes + {node})]
  }

  function AddGroupParent(groups: Groups, name: string, parent: string): Groups
    requires name in groups
  {
    groups[name := groups[name].(parents := groups[name].parents + {parent})]
  }

  type Users = map<string, PermissionUser>

  function AddUserNode(users: Users, uuid: string, node: string): Users
    requires uuid in users
  {
    users[uuid := users[uuid].(nodes := users[uuid].nodes + {node})]
  }

  function AddUserGroup(users: Users, uuid: string, group: string): Users
    requires uuid in users
  {
    users[uuid := users[uuid].(groups := users[uuid].groups + {group})]
  }

  predicate KnownGroup(r: Reader) { r.group.Some? && r.group.value in r.store.groups }

  predicate KnownUser(r: Reader) { r.user.Some? && r.user.value in r.store.users }

  function WithGroups(r: Reader, groups: Groups): Reader { r.(store := r.store.(groups := groups)) }

  function WithUsers(r: Reader, users: Users): Reader { r.(store := r.store.(users := users)) }

  function ReadGroup(r: Reader, name: string): Reader {
    if r.inGroups then
      var known := r.(group := Some(name));
      if name in r.store.groups then known
      else WithGroups(known, r.store.groups[name := PermissionGroup(name, {}, {})])
    else if r.inUsers && KnownUser(r) then WithUsers(r, AddUserGroup(r.store.users, r.user.value, name))
    else r
  }

  function ReadUser(r: Reader, uuid: string): Reader {
    var known := r.(user := Some(uuid));
    if uuid in r.store.users then known
    else WithUsers(known, r.store.users[uuid := PermissionUser(uuid, {}, {})])
  }

  function ReadParent(r: Reader, parent: string): Reader {
    if KnownGroup(r) then WithGroups(r, AddGroupParent(r.store.groups, r.group.value, parent)) else r
  }

  function ReadNode(r: Reader, node: string): Reader {
    if KnownGroup(r) then WithGroups(r, AddGroupNode(r.store.groups, r.group.value, node))
    else if KnownUser(r) then WithUsers(r, AddUserNode(r.store.users, r.user.value, node))
    else r
  }

  function Read(r: Reader, tag: Tag): Reader {
    match tag
    case GroupsStart => r.(inGroups := true, inUsers := false)
    case GroupsEnd => r.(inGroups := false, group := None)
    case UsersStart => r.(inUsers := true, inGroups := false)
    case UsersEnd => r.(inUsers := false, user := None)
    case GroupEnd => if r.inGroups then r.(group := None) else r
    case UserEnd => r.(user := None)
    case GroupTag(name) => ReadGroup(r, name)
    case UserTag(uuid) => ReadUser(r, uuid)
    case ParentTag(name) => ReadParent(r, name)
    case NodeTag(value) => ReadNode(r, value)
    case NoTag => r
  }

  function ReadLine(r: Reader, line: string): Reader { Read(r, TagOf(Trim(line))) }

  function ReadLines(r: Reader, lines: seq<string>): Reader
    decreases |lines|
  {
    if lines == [] then r else ReadLines(ReadLine(r, lines[0]), lines[1..])
  }

  /** The reader once it has gone through a text. */
  function ReadText(r: Reader, text: string): Reader { ReadLines(r, Lines(text)) }

  method LoadPermissions(text: string) returns (store: PermissionStore)
    ensures store == ReadText(START, text).store
  {
    hide ReadLine, Lines;
    var reader, lines := START, Lines(text);
    for i := 0 to |lines|
      invariant ReadLines(reader, lines[i..]) == ReadLines(START, lines)
    {
      assert lines[i..][1..] == lines[i + 1..];
      reader := ReadLine(reader, lines[i]);
    }
    return reader.store;
  }

  // --- Writing ------------------------------------------------------------------------

  const GROUP_OPENER: string := "<Group name=\""
  const USER_OPENER: string := "<User uuid=\""
  const PARENT_OPENER: string := "<Parent name=\""
  const NODE_OPENER: string := "<Node value=\""

  /** A line with a value in it. */
  function Entry(indent: string, opener: string, value: string, closer: string): string {
    indent + opener + Escape(value) + "\"" + closer
  }

  predicate OneLine(value: string) { '\n' !in value }

  /** Reading `text` and then anything else is like starting that from `r`. */
  ghost predicate Leads(text: string, r: Reader) {
    forall rest: string {:trigger text + rest} :: ReadText(START, text + rest) == ReadText(r, rest)
  }

  // --- Reading written lines ----------------------------------------------------------

  lemma ReadFirstLine(r: Reader, line: string, rest: string)
    requires '\n' !in line
    ensures ReadText(r, line + "\n" + rest) == ReadText(Read(r, TagOf(Trim(WithoutReturn(line)))), rest)
  {
    hide Trim, TagOf, Read, Lines, WithoutReturn;
    FirstLine(line, rest);
    var lines := Lines(line + "\n" + rest);
    assert lines[0] == WithoutReturn(line) && lines[1..] == Lines(rest);
  }

  /** A line without a value. */
  lemma LeadsOn(text: string, r: Reader, indent: string, line: string)
    requires Leads(text, r) && Blank(indent)
    requires line != [] && line[0] == '<' && line[|line| - 1] == '>' && '\n' !in line
    ensures Leads(text + (indent + line + "\n"), Read(r, TagOf(line)))
  {
    hide Trim, TagOf, Read, ReadText, WithoutReturn;
    forall rest: string
      ensures ReadText(START, (text + (indent + line + "\n")) + rest) == ReadText(Read(r, TagOf(line)), rest)
    {
      ReadIndented(indent, line);
      ReadFirstLine(r, indent + line, rest);
      assert (text + (indent + line + "\n")) + rest == text + ((indent + line) + "\n" + rest);
    }
  }

  /** Text without a tag in it, up to the end of a line, is passed over. */
  lemma {:induction false} ReadJunk(r: Reader, junk: string, rest: string)
    requires '<' !in junk
    ensures ReadText(r, junk + "\n" + rest) == ReadText(r, rest)
    decreases |junk|
  {
    hide Trim, TagOf, ReadText, WithoutReturn;
    var end := IndexOf(junk, '\n', 0);
    var line := junk[..end];
    JunkWithoutTag(line);
    if end == |junk| {
      assert line == junk;
      ReadFirstLine(r, junk, rest);
    } else {
      var later := junk[end + 1..];
      ReadFirstLine(r, line, later + "\n" + rest);
      assert junk + "\n" + rest == line + "\n" + (later + "\n" + rest);
      ReadJunk(r, later, rest);
    }
  }

  /** The shape of the text before and after a value. */
  predicate EntryShape(indent: string, opener: string, closer: string) {
    && Blank(indent) && |opener| > 1 && opener[0] == '<' && opener[|opener| - 1] == '"'
    && (forall i :: 0 <= i < |opener| - 1 ==> opener[i] != '"')
    && '\n' !in opener && '\n' !in closer && '<' !in closer && closer != [] && closer[|closer| - 1] == '>'
  }

  /** An entry whose value has a line break says nothing, on any of its lines. */
  lemma ReadBroken(r: Reader, indent: string, opener: string, value: string, closer: string, rest: string)
    requires EntryShape(indent, opener, closer) && !OneLine(value)
    ensures ReadText(r, Entry(indent, opener, value, closer) + "\n" + rest) == ReadText(r, rest)
  {
    hide Trim, TagOf, ReadText, WithoutReturn, Escape;
    EscapedContains(value);
    var escaped := Escape(value);
    var end := IndexOf(escaped, '\n', 0);
    var front := indent + opener;
    var line := front + escaped[..end];
    var junk := escaped[end + 1..] + "\"" + closer;
    BrokenLine(front, escaped[..end]);
    ReadFirstLine(r, line, junk + "\n" + rest);
    assert Entry(indent, opener, value, closer) + "\n" + rest == line + "\n" + (junk + "\n" + rest) by {
      assert escaped == escaped[..end] + "\n" + escaped[end + 1..];
    }
    assert '<' !in junk;
    ReadJunk(r, junk, rest);
  }

  lemma BrokenLine(front: string, part: string)
    requires front != [] && front[|front| - 1] == '"' && '"' !in front[..|front| - 1] && '"' !in part
    ensures TagOf(Trim(WithoutReturn(front + part))) == NoTag
  {
    hide Trim, TagOf, WithoutReturn;
    var line := front + part;
    forall i | 0 <= i < |line| && i != |front| - 1 ensures line[i] != '"' {
      if i < |front| - 1 { assert line[i] == front[..|front| - 1][i]; } else { assert line[i] == part[i - |front|]; }
    }
    BrokenWithoutTag(line, |front| - 1);
  }

  /** What reading an entry does: what its tag says, or nothing when the value has a line break. */
  lemma LeadsOnEntry(text: string, r: Reader, indent: string, opener: string, value: string, closer: string)
    requires Leads(text, r) && EntryShape(indent, opener, closer)
    ensures var line := opener + Escape(value) + "\"" + closer;
            Leads(text + (Entry(indent, opener, value, closer) + "\n"),
                  if OneLine(value) then Read(r, TagOf(line)) else r)
  {
    hide Trim, TagOf, Read, ReadText, WithoutReturn, Escape, Leads;
    var line := opener + Escape(value) + "\"" + closer;
    assert Entry(indent, opener, value, closer) == indent + line;
    if OneLine(value) {
      EscapedContains(value);
      LeadsOn(text, r, indent, line);
    } else {
      LeadsOnBroken(text, r, indent, opener, value, closer);
    }
  }

  lemma LeadsOnBroken(text: string, r: Reader, indent: string, opener: string, value: string, closer: string)
    requires Leads(text, r) && EntryShape(indent, opener, closer) && !OneLine(value)
    ensures Leads(text + (Entry(indent, opener, value, closer) + "\n"), r)
  {
    hide ReadText, Entry;
    var entry := Entry(indent, opener, value, closer);
    forall rest: string ensures ReadText(START, (text + (entry + "\n")) + rest) == ReadText(r, rest) {
      ReadBroken(r, indent, opener, value, closer, rest);
      assert (text + (entry + "\n")) + rest == text + (entry + "\n" + rest);
    }
  }

  // --- The entries of each kind -------------------------------------------------------

  lemma Shapes()
    ensures EntryShape("    ", GROUP_OPENER, ">") && EntryShape("    ", USER_OPENER, ">")
    ensures EntryShape("      ", PARENT_OPENER, " />") && EntryShape("      ", NODE_OPENER, " />")
    ensures EntryShape("      ", GROUP_OPENER, " />")
  {}

  lemma GroupTagRead(name: string, closer: string)
    ensures TagOf(GROUP_OPENER + Escape(name) + "\"" + closer) == GroupTag(name)
  {
    hide Attribute, Escape;
    AttributeRead("<Group ", "name=\"", name, closer);
    assert GROUP_OPENER == "<Group " + "name=\"";
  }

  lemma UserTagRead(uuid: string, closer: string)
    ensures TagOf(USER_OPENER + Escape(uuid) + "\"" + closer) == UserTag(uuid)
  {
    hide Attribute, Escape;
    AttributeRead("<User ", "uuid=\"", uuid, closer);
    assert USER_OPENER == "<User " + "uuid=\"";
    assert (USER_OPENER + Escape(uuid) + "\"" + closer)[1] == 'U';
  }

  lemma NodeTagRead(node: string, closer: string)
    ensures TagOf(NODE_OPENER + Escape(node) + "\"" + closer) == NodeTag(node)
  {
    hide Attribute, Escape;
    AttributeRead("<Node ", "value=\"", node, closer);
    assert NODE_OPENER == "<Node " + "value=\"";
    assert (NODE_OPENER + Escape(node) + "\"" + closer)[1] == 'N';
  }

  lemma ParentTagRead(parent: string, closer: string)
    ensures TagOf(PARENT_OPENER + Escape(parent) + "\"" + closer) == ParentTag(parent)
  {
    hide Attribute, Escape;
    AttributeRead("<Parent ", "name=\"", parent, closer);
    assert PARENT_OPENER == "<Parent " + "name=\"";
    assert (PARENT_OPENER + Escape(parent) + "\"" + closer)[1] == 'P';
  }
}
