/** What comes back of a store that was written and read. */
module PermissionCleaning {
  import opened PermissionReader
  import opened Permissions

  // --- What is read back --------------------------------------------------------------

  /** What is kept of a set of values: those without a line break. */
  function Kept(values: set<string>): set<string> { set value | value in values && OneLine(value) }

  /** `groups` with more nodes and parents for one of them, which may be new. */
  function Extended(groups: Groups, name: string, nodes: set<string>, parents: set<string>): Groups {
    var known := if name in groups then groups[name] else PermissionGroup(name, {}, {});
    groups[name := PermissionGroup(known.name, known.nodes + nodes, known.parents + parents)]
  }

  function ExtendedUsers(users: Users, uuid: string, nodes: set<string>, groups: set<string>): Users {
    var known := if uuid in users then users[uuid] else PermissionUser(uuid, {}, {});
    users[uuid := PermissionUser(known.uuid, known.nodes + nodes, known.groups + groups)]
  }

  /** Reading a store back gives, for each group name without a line break, everything without a
      line break that groups of that name hold; and the same for users. */
  function Cleaned(store: PermissionStore): PermissionStore {
    PermissionStore(CleanedUsers(store.users, store.users.Keys), CleanedGroups(store.groups, store.groups.Keys))
  }

  function CleanedGroups(groups: Groups, keys: set<string>): Groups
    requires keys <= groups.Keys
  {
    map name | name in Names(groups, keys, GroupName) ::
      PermissionGroup(
        name, Members(groups, keys, GroupName, GroupNodes, name), Members(groups, keys, GroupName, Parents, name))
  }

  function CleanedUsers(users: Users, keys: set<string>): Users
    requires keys <= users.Keys
  {
    map uuid | uuid in Names(users, keys, Uuid) ::
      PermissionUser(uuid, Members(users, keys, Uuid, UserNodes, uuid), Members(users, keys, Uuid, GroupsOf, uuid))
  }

  function AfterGroup(groups: Groups, group: PermissionGroup): Groups {
    if OneLine(group.name) then Extended(groups, group.name, Kept(group.nodes), Kept(group.parents)) else groups
  }

  function AfterUser(users: Users, user: PermissionUser): Users {
    if OneLine(user.uuid) then ExtendedUsers(users, user.uuid, Kept(user.nodes), Kept(user.groups)) else users
  }

  // --- Groups and users alike ---------------------------------------------------------

  function GroupName(group: PermissionGroup): string { group.name }

  function GroupNodes(group: PermissionGroup): set<string> { group.nodes }

  function Parents(group: PermissionGroup): set<string> { group.parents }

  function Uuid(user: PermissionUser): string { user.uuid }

  function UserNodes(user: PermissionUser): set<string> { user.nodes }

  function GroupsOf(user: PermissionUser): set<string> { user.groups }

  /** The names without a line break of the items under `keys`. */
  function Names<T>(items: map<string, T>, keys: set<string>, nameOf: T -> string): (names: set<string>)
    requires keys <= items.Keys
    ensures forall name :: name in names ==> OneLine(name)
  {
    set key | key in keys && OneLine(nameOf(items[key])) :: nameOf(items[key])
  }

  /** What the items under `keys` that are called `name` hold, without line breaks. */
  function Members<T>(
      items: map<string, T>, keys: set<string>, nameOf: T -> string, part: T -> set<string>, name: string): set<string>
    requires keys <= items.Keys
  {
    set key, value | key in keys && nameOf(items[key]) == name && value in Kept(part(items[key])) :: value
  }

  lemma NamesStep<T>(items: map<string, T>, keys: set<string>, nameOf: T -> string, key: string)
    requires keys <= items.Keys && key in items
    ensures Names(items, keys + {key}, nameOf)
         == Names(items, keys, nameOf) + if OneLine(nameOf(items[key])) then {nameOf(items[key])} else {}
  {}

  lemma MembersStep<T>(
      items: map<string, T>, keys: set<string>, nameOf: T -> string, part: T -> set<string>, key: string, name: string)
    requires keys <= items.Keys && key in items
    ensures Members(items, keys + {key}, nameOf, part, name)
         == Members(items, keys, nameOf, part, name) + if name == nameOf(items[key]) then Kept(part(items[key])) else {}
  {}

  /** Nothing is held under a name that no key has. */
  lemma Unnamed<T>(items: map<string, T>, keys: set<string>, nameOf: T -> string, part: T -> set<string>, name: string)
    requires keys <= items.Keys && OneLine(name) && name !in Names(items, keys, nameOf)
    ensures Members(items, keys, nameOf, part, name) == {}
  {}

  /** Every key is the name of its item, on one line. */
  ghost predicate OwnNames<T>(items: map<string, T>, nameOf: T -> string) {
    forall key :: key in items ==> nameOf(items[key]) == key && OneLine(key)
  }

  lemma NamesOfOwn<T>(items: map<string, T>, nameOf: T -> string)
    requires OwnNames(items, nameOf)
    ensures Names(items, items.Keys, nameOf) == items.Keys
  {}

  lemma MembersOfOwn<T>(items: map<string, T>, nameOf: T -> string, part: T -> set<string>, name: string)
    requires OwnNames(items, nameOf) && name in items
    ensures Members(items, items.Keys, nameOf, part, name) == Kept(part(items[name]))
  {}

  lemma MembersAreKept<T>(
      items: map<string, T>, keys: set<string>, nameOf: T -> string, part: T -> set<string>, name: string)
    requires keys <= items.Keys
    ensures Kept(Members(items, keys, nameOf, part, name)) == Members(items, keys, nameOf, part, name)
  {}

  // --- One more item ------------------------------------------------------------------

  lemma CleanedGroupsStep(groups: Groups, keys: set<string>, key: string)
    requires keys <= groups.Keys && key in groups
    ensures CleanedGroups(groups, keys + {key}) == AfterGroup(CleanedGroups(groups, keys), groups[key])
  {
    hide Names, Members, Kept, OneLine;
    var before, after := CleanedGroups(groups, keys), CleanedGroups(groups, keys + {key});
    NamesStep(groups, keys, GroupName, key);
    forall name | name in after ensures after[name] == AfterGroup(before, groups[key])[name] {
      MembersStep(groups, keys, GroupName, GroupNodes, key, name);
      MembersStep(groups, keys, GroupName, Parents, key, name);
      if name !in before {
        Unnamed(groups, keys, GroupName, GroupNodes, name);
        Unnamed(groups, keys, GroupName, Parents, name);
      }
    }
  }

  lemma CleanedUsersStep(users: Users, keys: set<string>, key: string)
    requires keys <= users.Keys && key in users
    ensures CleanedUsers(users, keys + {key}) == AfterUser(CleanedUsers(users, keys), users[key])
  {
    hide Names, Members, Kept, OneLine;
    var before, after := CleanedUsers(users, keys), CleanedUsers(users, keys + {key});
    NamesStep(users, keys, Uuid, key);
    forall uuid | uuid in after ensures after[uuid] == AfterUser(before, users[key])[uuid] {
      MembersStep(users, keys, Uuid, UserNodes, key, uuid);
      MembersStep(users, keys, Uuid, GroupsOf, key, uuid);
      if uuid !in before {
        Unnamed(users, keys, Uuid, UserNodes, uuid);
        Unnamed(users, keys, Uuid, GroupsOf, uuid);
      }
    }
  }

  // --- What comes back unchanged ------------------------------------------------------

  /** A store is read back unchanged exactly when its keys are the names stored under them and no
      string in it has a line break. */
  predicate Faithful(store: PermissionStore) {
    && (forall key :: key in store.groups ==> FaithfulGroup(key, store.groups[key]))
    && (forall key :: key in store.users ==> FaithfulUser(key, store.users[key]))
  }

  predicate FaithfulGroup(key: string, group: PermissionGroup) {
    key == group.name && OneLine(key) && Kept(group.nodes) == group.nodes && Kept(group.parents) == group.parents
  }

  predicate FaithfulUser(key: string, user: PermissionUser) {
    key == user.uuid && OneLine(key) && Kept(user.nodes) == user.nodes && Kept(user.groups) == user.groups
  }

  lemma FaithfulGroups(groups: Groups)
    ensures CleanedGroups(groups, groups.Keys) == groups
        <==> forall key :: key in groups ==> FaithfulGroup(key, groups[key])
  {
    hide Names, Members, Kept, OneLine;
    var cleaned := CleanedGroups(groups, groups.Keys);
    if forall key :: key in groups ==> FaithfulGroup(key, groups[key]) {
      NamesOfOwn(groups, GroupName);
      forall key | key in groups ensures cleaned[key] == groups[key] {
        MembersOfOwn(groups, GroupName, GroupNodes, key);
        MembersOfOwn(groups, GroupName, Parents, key);
      }
    } else if cleaned == groups {
      forall key | key in groups ensures FaithfulGroup(key, groups[key]) {
        assert key in Names(groups, groups.Keys, GroupName) && groups[key] == cleaned[key];
        MembersAreKept(groups, groups.Keys, GroupName, GroupNodes, key);
        MembersAreKept(groups, groups.Keys, GroupName, Parents, key);
      }
      assert false;
    }
  }

  lemma FaithfulUsers(users: Users)
    ensures CleanedUsers(users, users.Keys) == users <==> forall key :: key in users ==> FaithfulUser(key, users[key])
  {
    hide Names, Members, Kept, OneLine;
    var cleaned := CleanedUsers(users, users.Keys);
    if forall key :: key in users ==> FaithfulUser(key, users[key]) {
      NamesOfOwn(users, Uuid);
      forall key | key in users ensures cleaned[key] == users[key] {
        MembersOfOwn(users, Uuid, UserNodes, key);
        MembersOfOwn(users, Uuid, GroupsOf, key);
      }
    } else if cleaned == users {
      forall key | key in users ensures FaithfulUser(key, users[key]) {
        assert key in Names(users, users.Keys, Uuid) && users[key] == cleaned[key];
        MembersAreKept(users, users.Keys, Uuid, UserNodes, key);
        MembersAreKept(users, users.Keys, Uuid, GroupsOf, key);
      }
      assert false;
    }
  }

  /** A group whose name has a line break is lost. */
  lemma LineBreakLost() returns (store: PermissionStore)
    ensures store == PermissionStore(map[], map["a\nb" := PermissionGroup("a\nb", {}, {})])
    ensures Cleaned(store) == PermissionStore(map[], map[])
  {
    var name := "a\nb";
    store := PermissionStore(map[], map[name := PermissionGroup(name, {}, {})]);
    assert name[1] == '\n';
    assert Names(store.groups, store.groups.Keys, GroupName) == {};
    assert Names(store.users, store.users.Keys, Uuid) == {};
  }
}
