/** Writing a permission store to a file, and reading it back. */
module PermissionFile {
  import opened Wrappers
  import opened Escaping
  import opened PermissionLines
  import opened PermissionReader
  import opened PermissionCleaning
  import opened Permissions

  // --- Writing the groups -------------------------------------------------------------

  function InGroups(groups: Groups): Reader { Reader(PermissionStore(map[], groups), None, None, true, false) }

  /** The reader inside the entry of a group, after some of its nodes and parents. */
  function OfGroup(groups: Groups, name: string, nodes: set<string>, parents: set<string>): Reader {
    if OneLine(name)
    then
      var known := Extended(groups, name, Kept(nodes), Kept(parents));
      Reader(PermissionStore(map[], known), Some(name), None, true, false)
    else InGroups(groups)
  }

  function ReadIf(r: Reader, value: string, tag: Tag): Reader { if OneLine(value) then Read(r, tag) else r }

  lemma KeptStep(values: set<string>, value: string)
    ensures Kept(values + {value}) == if OneLine(value) then Kept(values) + {value} else Kept(values)
    ensures Kept({}) == {}
  {}

  lemma GroupStarted(groups: Groups, name: string)
    ensures ReadIf(InGroups(groups), name, GroupTag(name)) == OfGroup(groups, name, {}, {})
  {
    hide OneLine;
    KeptStep({}, name);
    var known := if name in groups then groups[name] else PermissionGroup(name, {}, {});
    assert known == PermissionGroup(known.name, known.nodes + {}, known.parents + {});
    if name in groups { assert groups[name := known] == groups; }
  }

  lemma ParentAdded(groups: Groups, name: string, nodes: set<string>, parents: set<string>, parent: string)
    ensures ReadIf(OfGroup(groups, name, nodes, parents), parent, ParentTag(parent))
        == OfGroup(groups, name, nodes, parents + {parent})
  {
    hide OneLine, Kept;
    KeptStep(parents, parent);
    var known := if name in groups then groups[name] else PermissionGroup(name, {}, {});
    assert known.parents + (Kept(parents) + {parent}) == (known.parents + Kept(parents)) + {parent};
  }

  lemma GroupNodeAdded(groups: Groups, name: string, nodes: set<string>, parents: set<string>, node: string)
    ensures ReadIf(OfGroup(groups, name, nodes, parents), node, NodeTag(node))
        == OfGroup(groups, name, nodes + {node}, parents)
  {
    hide OneLine, Kept;
    KeptStep(nodes, node);
    var known := if name in groups then groups[name] else PermissionGroup(name, {}, {});
    assert known.nodes + (Kept(nodes) + {node}) == (known.nodes + Kept(nodes)) + {node};
  }

  lemma GroupFinished(groups: Groups, group: PermissionGroup)
    ensures Read(OfGroup(groups, group.name, group.nodes, group.parents), GroupEnd)
        == InGroups(AfterGroup(groups, group))
  {}

  method WriteGroup(out: string, group: PermissionGroup, ghost groups: Groups) returns (text: string)
    requires Leads(out, InGroups(groups))
    ensures Leads(text, InGroups(AfterGroup(groups, group)))
  {
    hide Leads, Read, TagOf, OfGroup, InGroups, AfterGroup, OneLine, Escape, EntryShape;
    Shapes();
    GroupTagRead(group.name, ">");
    LeadsOnEntry(out, InGroups(groups), "    ", GROUP_OPENER, group.name, ">");
    GroupStarted(groups, group.name);
    text := out + (Entry("    ", GROUP_OPENER, group.name, ">") + "\n");
    var rest := group.parents;
    assert group.parents - rest == {};
    while rest != {}
      invariant rest <= group.parents
      invariant Leads(text, OfGroup(groups, group.name, {}, group.parents - rest))
    {
      var parent :| parent in rest;
      ParentTagRead(parent, " />");
      LeadsOnEntry(text, OfGroup(groups, group.name, {}, group.parents - rest), "      ", PARENT_OPENER, parent, " />");
      ParentAdded(groups, group.name, {}, group.parents - rest, parent);
      assert group.parents - (rest - {parent}) == (group.parents - rest) + {parent};
      text := text + (Entry("      ", PARENT_OPENER, parent, " />") + "\n");
      rest := rest - {parent};
    }
    assert group.parents - rest == group.parents;
    rest := group.nodes;
    assert group.nodes - rest == {};
    while rest != {}
      invariant rest <= group.nodes
      invariant Leads(text, OfGroup(groups, group.name, group.nodes - rest, group.parents))
    {
      var node :| node in rest;
      NodeTagRead(node, " />");
      LeadsOnEntry(
        text, OfGroup(groups, group.name, group.nodes - rest, group.parents), "      ", NODE_OPENER, node, " />");
      GroupNodeAdded(groups, group.name, group.nodes - rest, group.parents, node);
      assert group.nodes - (rest - {node}) == (group.nodes - rest) + {node};
      text := text + (Entry("      ", NODE_OPENER, node, " />") + "\n");
      rest := rest - {node};
    }
    assert group.nodes - rest == group.nodes;
    GroupFinished(groups, group);
    LeadsOnGroupEnd(text, OfGroup(groups, group.name, group.nodes, group.parents));
    text := text + ("    " + "</Group>" + "\n");
  }

  lemma LeadsOnGroupEnd(text: string, r: Reader)
    requires Leads(text, r)
    ensures Leads(text + ("    " + "</Group>" + "\n"), Read(r, GroupEnd))
  {
    hide Leads, Read;
    LeadsOn(text, r, "    ", "</Group>");
  }

  // --- Writing the users --------------------------------------------------------------

  function InUsers(groups: Groups, users: Users): Reader {
    Reader(PermissionStore(users, groups), None, None, false, true)
  }

  /** The reader inside the entry of a user, after some of the user's nodes and groups. */
  function OfUser(groups: Groups, users: Users, uuid: string, nodes: set<string>, names: set<string>): Reader {
    if OneLine(uuid)
    then
      var known := ExtendedUsers(users, uuid, Kept(nodes), Kept(names));
      Reader(PermissionStore(known, groups), None, Some(uuid), false, true)
    else InUsers(groups, users)
  }

  lemma UserStarted(groups: Groups, users: Users, uuid: string)
    ensures ReadIf(InUsers(groups, users), uuid, UserTag(uuid)) == OfUser(groups, users, uuid, {}, {})
  {
    hide OneLine;
    KeptStep({}, uuid);
    var known := if uuid in users then users[uuid] else PermissionUser(uuid, {}, {});
    assert known == PermissionUser(known.uuid, known.nodes + {}, known.groups + {});
    if uuid in users { assert users[uuid := known] == users; }
  }

  lemma UserGroupAdded(groups: Groups, users: Users, uuid: string, nodes: set<string>, names: set<string>, name: string)
    ensures ReadIf(OfUser(groups, users, uuid, nodes, names), name, GroupTag(name))
        == OfUser(groups, users, uuid, nodes, names + {name})
  {
    hide OneLine, Kept;
    KeptStep(names, name);
    var known := if uuid in users then users[uuid] else PermissionUser(uuid, {}, {});
    assert known.groups + (Kept(names) + {name}) == (known.groups + Kept(names)) + {name};
  }

  lemma UserNodeAdded(groups: Groups, users: Users, uuid: string, nodes: set<string>, names: set<string>, node: string)
    ensures ReadIf(OfUser(groups, users, uuid, nodes, names), node, NodeTag(node))
        == OfUser(groups, users, uuid, nodes + {node}, names)
  {
    hide OneLine, Kept;
    KeptStep(nodes, node);
    var known := if uuid in users then users[uuid] else PermissionUser(uuid, {}, {});
    assert known.nodes + (Kept(nodes) + {node}) == (known.nodes + Kept(nodes)) + {node};
  }

  lemma UserFinished(groups: Groups, users: Users, user: PermissionUser)
    ensures Read(OfUser(groups, users, user.uuid, user.nodes, user.groups), UserEnd)
        == InUsers(groups, AfterUser(users, user))
  {}

  method WriteUser(out: string, user: PermissionUser, ghost groups: Groups, ghost users: Users) returns (text: string)
    requires Leads(out, InUsers(groups, users))
    ensures Leads(text, InUsers(groups, AfterUser(users, user)))
  {
    hide Leads, Read, TagOf, OfUser, InUsers, AfterUser, OneLine, Escape, EntryShape;
    Shapes();
    UserTagRead(user.uuid, ">");
    LeadsOnEntry(out, InUsers(groups, users), "    ", USER_OPENER, user.uuid, ">");
    UserStarted(groups, users, user.uuid);
    text := out + (Entry("    ", USER_OPENER, user.uuid, ">") + "\n");
    var rest := user.groups;
    assert user.groups - rest == {};
    while rest != {}
      invariant rest <= user.groups
      invariant Leads(text, OfUser(groups, users, user.uuid, {}, user.groups - rest))
    {
      var name :| name in rest;
      GroupTagRead(name, " />");
      LeadsOnEntry(text, OfUser(groups, users, user.uuid, {}, user.groups - rest), "      ", GROUP_OPENER, name, " />");
      UserGroupAdded(groups, users, user.uuid, {}, user.groups - rest, name);
      assert user.groups - (rest - {name}) == (user.groups - rest) + {name};
      text := text + (Entry("      ", GROUP_OPENER, name, " />") + "\n");
      rest := rest - {name};
    }
    assert user.groups - rest == user.groups;
    rest := user.nodes;
    assert user.nodes - rest == {};
    while rest != {}
      invariant rest <= user.nodes
      invariant Leads(text, OfUser(groups, users, user.uuid, user.nodes - rest, user.groups))
    {
      var node :| node in rest;
      NodeTagRead(node, " />");
      LeadsOnEntry(
        text, OfUser(groups, users, user.uuid, user.nodes - rest, user.groups), "      ", NODE_OPENER, node, " />");
      UserNodeAdded(groups, users, user.uuid, user.nodes - rest, user.groups, node);
      assert user.nodes - (rest - {node}) == (user.nodes - rest) + {node};
      text := text + (Entry("      ", NODE_OPENER, node, " />") + "\n");
      rest := rest - {node};
    }
    assert user.nodes - rest == user.nodes;
    UserFinished(groups, users, user);
    LeadsOnUserEnd(text, OfUser(groups, users, user.uuid, user.nodes, user.groups));
    text := text + ("    " + "</User>" + "\n");
  }

  lemma LeadsOnUserEnd(text: string, r: Reader)
    requires Leads(text, r)
    ensures Leads(text + ("    " + "</User>" + "\n"), Read(r, UserEnd))
  {
    hide Leads, Read;
    LeadsOn(text, r, "    ", "</User>");
  }

  // --- The whole file -----------------------------------------------------------------

  lemma LeadsAtStart()
    ensures Leads("", START)
  {
    hide ReadText;
    forall rest: string ensures ReadText(START, "" + rest) == ReadText(START, rest) {
      assert "" + rest == rest;
    }
  }

  const HEADER: string := ("" + "<?xml version=\"1.0\"?>" + "\n") + ("" + "<Permissions>" + "\n")
      + ("  " + "<Groups>" + "\n")
  const MIDDLE: string := ("  " + "</Groups>" + "\n") + ("  " + "<Users>" + "\n")
  const TRAILER: string := ("  " + "</Users>" + "\n") + ("" + "</Permissions>" + "\n")

  lemma LeadsPastHeader()
    ensures Leads(HEADER, InGroups(map[]))
  {
    hide Leads, Read;
    var xml, root, groups := "<?xml version=\"1.0\"?>", "<Permissions>", "<Groups>";
    LeadsAtStart();
    NeutralLine("", START, xml);
    var first := "" + ("" + xml + "\n");
    NeutralLine(first, START, root);
    var second := first + ("" + root + "\n");
    LeadsOn(second, START, "  ", groups);
    assert second + ("  " + groups + "\n") == HEADER;
    GroupsStarted();
  }

  lemma GroupsStarted()
    ensures Read(START, GroupsStart) == InGroups(map[])
  {}

  /** The lines of the file that are no tags to the reader. */
  lemma NeutralLine(text: string, r: Reader, line: string)
    requires Leads(text, r)
    requires line == "<?xml version=\"1.0\"?>" || line == "<Permissions>" || line == "</Permissions>"
    ensures Leads(text + ("" + line + "\n"), r)
  {
    hide Leads;
    NeutralTag(line);
    LeadsOn(text, r, "", line);
  }

  lemma NeutralTag(line: string)
    requires line == "<?xml version=\"1.0\"?>" || line == "<Permissions>" || line == "</Permissions>"
    ensures TagOf(line) == NoTag
  {
    OtherTag(line);
  }

  /** A line whose second and third characters start no tag the reader knows. */
  lemma OtherTag(line: string)
    requires |line| > 2
    requires line[1] == '?' || (line[1] == '/' && line[2] == 'P') || (line[1] == 'P' && line[2] == 'e')
    ensures TagOf(line) == NoTag
  {
    hide Attribute, TagOr;
  }

  lemma LeadsPastMiddle(text: string, groups: Groups)
    requires Leads(text, InGroups(groups))
    ensures Leads(text + MIDDLE, InUsers(groups, map[]))
  {
    hide Leads;
    var end, users := "</Groups>", "<Users>";
    LeadsOn(text, InGroups(groups), "  ", end);
    var r := Read(InGroups(groups), GroupsEnd);
    LeadsOn(text + ("  " + end + "\n"), r, "  ", users);
    assert (text + ("  " + end + "\n")) + ("  " + users + "\n") == text + MIDDLE;
  }

  lemma ReadPastTrailer(text: string, groups: Groups, users: Users)
    requires Leads(text, InUsers(groups, users))
    ensures ReadText(START, text + TRAILER).store == PermissionStore(users, groups)
  {
    hide ReadText, Leads;
    var end, root := "</Users>", "</Permissions>";
    LeadsOn(text, InUsers(groups, users), "  ", end);
    var r := Read(InUsers(groups, users), UsersEnd);
    NeutralLine(text + ("  " + end + "\n"), r, root);
    assert (text + ("  " + end + "\n")) + ("" + root + "\n") == text + TRAILER;
    LeadsEnds(text + TRAILER, r);
  }

  lemma LeadsEnds(text: string, r: Reader)
    requires Leads(text, r)
    ensures ReadText(START, text) == r
  {
    assert text + "" == text;
    assert ReadText(START, text + "") == ReadText(r, "");
  }

  method WriteGroups(out: string, groups: Groups) returns (text: string)
    requires Leads(out, InGroups(map[]))
    ensures Leads(text, InGroups(CleanedGroups(groups, groups.Keys)))
  {
    hide Leads, InGroups, AfterGroup, CleanedGroups;
    text := out;
    NoGroupsCleaned(groups);
    var rest := groups.Keys;
    assert groups.Keys - rest == {};
    while rest != {}
      invariant rest <= groups.Keys
      invariant Leads(text, InGroups(CleanedGroups(groups, groups.Keys - rest)))
    {
      var key :| key in rest;
      CleanedGroupsStep(groups, groups.Keys - rest, key);
      assert groups.Keys - (rest - {key}) == (groups.Keys - rest) + {key};
      text := WriteGroup(text, groups[key], CleanedGroups(groups, groups.Keys - rest));
      rest := rest - {key};
    }
    assert groups.Keys - rest == groups.Keys;
  }

  method WriteUsers(out: string, users: Users, ghost groups: Groups) returns (text: string)
    requires Leads(out, InUsers(groups, map[]))
    ensures Leads(text, InUsers(groups, CleanedUsers(users, users.Keys)))
  {
    hide Leads, InUsers, AfterUser, CleanedUsers;
    text := out;
    NoUsersCleaned(users);
    var rest := users.Keys;
    assert users.Keys - rest == {};
    while rest != {}
      invariant rest <= users.Keys
      invariant Leads(text, InUsers(groups, CleanedUsers(users, users.Keys - rest)))
    {
      var key :| key in rest;
      CleanedUsersStep(users, users.Keys - rest, key);
      assert users.Keys - (rest - {key}) == (users.Keys - rest) + {key};
      text := WriteUser(text, users[key], groups, CleanedUsers(users, users.Keys - rest));
      rest := rest - {key};
    }
    assert users.Keys - rest == users.Keys;
  }

  lemma NoGroupsCleaned(groups: Groups)
    ensures CleanedGroups(groups, {}) == map[]
  {}

  lemma NoUsersCleaned(users: Users)
    ensures CleanedUsers(users, {}) == map[]
  {}

  /** Writes a store, walking its maps and sets in an arbitrary order. Whatever the order, and
      whatever the strings, reading the text gives the cleaned store. */
  method SavePermissions(store: PermissionStore) returns (out: string)
    ensures ReadText(START, out).store == Cleaned(store)
  {
    hide ReadText, Leads, InGroups, InUsers, CleanedGroups, CleanedUsers;
    LeadsPastHeader();
    out := WriteGroups(HEADER, store.groups);
    ghost var groups := CleanedGroups(store.groups, store.groups.Keys);
    LeadsPastMiddle(out, groups);
    out := WriteUsers(out + MIDDLE, store.users, groups);
    ReadPastTrailer(out, groups, CleanedUsers(store.users, store.users.Keys));
    out := out + TRAILER;
  }

  /** Saving and loading. */
  method SaveAndLoad(store: PermissionStore) returns (loaded: PermissionStore)
    ensures loaded == store <==> Faithful(store)
  {
    hide ReadText, Cleaned;
    var text := SavePermissions(store);
    loaded := LoadPermissions(text);
    FaithfulExact(store);
  }

  lemma FaithfulExact(store: PermissionStore)
    ensures Cleaned(store) == store <==> Faithful(store)
  {
    hide CleanedGroups, CleanedUsers, FaithfulGroup, FaithfulUser;
    FaithfulGroups(store.groups);
    FaithfulUsers(store.users);
  }
}
