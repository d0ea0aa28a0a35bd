/** What a permission file says, whoever wrote it: which lines state what, by where they stand. */
module PermissionMeaning {
  import opened Wrappers
  import opened Text
  import opened PermissionLines
  import opened PermissionReader
  import opened Permissions

  /** The tags of the lines of a text. */
  function TagsOf(text: string): seq<Tag> { LineTags(Lines(text)) }

  function LineTags(lines: seq<string>): seq<Tag> {
    if lines == [] then [] else LineTags(lines[..|lines| - 1]) + [TagOf(Trim(lines[|lines| - 1]))]
  }

  // --- Where a line stands ------------------------------------------------------------

  predicate InGroups(tags: seq<Tag>) {
    tags != []
    && match tags[|tags| - 1]
       case GroupsStart => true
       case GroupsEnd => false
       case UsersStart => false
       case _ => InGroups(tags[..|tags| - 1])
  }

  predicate InUsers(tags: seq<Tag>) {
    tags != []
    && match tags[|tags| - 1]
       case UsersStart => true
       case UsersEnd => false
       case GroupsStart => false
       case _ => InUsers(tags[..|tags| - 1])
  }

  /** The group whose entry is open. */
  function OpenGroup(tags: seq<Tag>): Option<string> {
    if tags == [] then None
    else
      var before := tags[..|tags| - 1];
      match tags[|tags| - 1]
      case GroupTag(name) => if InGroups(before) then Some(name) else OpenGroup(before)
      case GroupEnd => if InGroups(before) then None else OpenGroup(before)
      case GroupsEnd => None
      case _ => OpenGroup(before)
  }

  /** The user whose entry is open. */
  function OpenUser(tags: seq<Tag>): Option<string> {
    if tags == [] then None
    else match tags[|tags| - 1]
      case UserTag(uuid) => Some(uuid)
      case UserEnd => None
      case UsersEnd => None
      case _ => OpenUser(tags[..|tags| - 1])
  }

  // --- What a line states -------------------------------------------------------------

  datatype Fact =
    | GroupIs(name: string) | GroupHasNode(name: string, node: string) | GroupHasParent(name: string, parent: string)
    | UserIs(uuid: string) | UserHasNode(uuid: string, node: string) | UserInGroup(uuid: string, group: string)

  /** A line states a fact by its tag and by what is open before it. */
  predicate States(before: seq<Tag>, tag: Tag, fact: Fact) {
    match fact
    case GroupIs(name) => tag == GroupTag(name) && InGroups(before)
    case GroupHasNode(name, node) => tag == NodeTag(node) && OpenGroup(before) == Some(name)
    case GroupHasParent(name, parent) => tag == ParentTag(parent) && OpenGroup(before) == Some(name)
    case UserIs(uuid) => tag == UserTag(uuid)
    case UserHasNode(uuid, node) => tag == NodeTag(node) && OpenGroup(before) == None && OpenUser(before) == Some(uuid)
    case UserInGroup(uuid, group) =>
      tag == GroupTag(group) && !InGroups(before) && InUsers(before) && OpenUser(before) == Some(uuid)
  }

  ghost predicate Stated(tags: seq<Tag>, fact: Fact) {
    exists i :: 0 <= i < |tags| && States(tags[..i], tags[i], fact)
  }

  predicate Holds(store: PermissionStore, fact: Fact) {
    match fact
    case GroupIs(name) => name in store.groups
    case GroupHasNode(name, node) => name in store.groups && node in store.groups[name].nodes
    case GroupHasParent(name, parent) => name in store.groups && parent in store.groups[name].parents
    case UserIs(uuid) => uuid in store.users
    case UserHasNode(uuid, node) => uuid in store.users && node in store.users[uuid].nodes
    case UserInGroup(uuid, group) => uuid in store.users && group in store.users[uuid].groups
  }

  // --- The reader ---------------------------------------------------------------------

  function Told(tags: seq<Tag>): Reader {
    if tags == [] then START else Read(Told(tags[..|tags| - 1]), tags[|tags| - 1])
  }

  /** The reader knows where it is, and what is open has an entry of its own name. */
  predicate Placed(r: Reader, tags: seq<Tag>) {
    && r.inGroups == InGroups(tags) && r.inUsers == InUsers(tags)
    && r.group == OpenGroup(tags) && r.user == OpenUser(tags)
    && (r.group.Some? ==> r.group.value in r.store.groups) && (r.user.Some? ==> r.user.value in r.store.users)
  }

  predicate OwnNames(store: PermissionStore) {
    && (forall name :: name in store.groups ==> store.groups[name].name == name)
    && (forall uuid :: uuid in store.users ==> store.users[uuid].uuid == uuid)
  }

  lemma PlacedNext(r: Reader, tags: seq<Tag>, tag: Tag)
    requires Placed(r, tags)
    ensures Placed(Read(r, tag), tags + [tag])
  {
    assert (tags + [tag])[..|tags|] == tags;
  }

  lemma NamesNext(r: Reader, tag: Tag)
    requires OwnNames(r.store)
    ensures OwnNames(Read(r, tag).store)
  {}

  lemma HoldsNext(r: Reader, tags: seq<Tag>, tag: Tag, fact: Fact)
    requires Placed(r, tags)
    ensures Holds(Read(r, tag).store, fact) <==> Holds(r.store, fact) || States(tags, tag, fact)
  {
    hide InGroups, InUsers, OpenGroup, OpenUser;
    match tag
    case GroupTag(name) => GroupNext(r, tags, name, fact);
    case NodeTag(node) => NodeNext(r, tags, node, fact);
    case _ =>
  }

  lemma GroupNext(r: Reader, tags: seq<Tag>, name: string, fact: Fact)
    requires Placed(r, tags)
    ensures Holds(ReadGroup(r, name).store, fact) <==> Holds(r.store, fact) || States(tags, GroupTag(name), fact)
  {
    hide InGroups, InUsers, OpenGroup, OpenUser;
  }

  lemma NodeNext(r: Reader, tags: seq<Tag>, node: string, fact: Fact)
    requires Placed(r, tags)
    ensures Holds(ReadNode(r, node).store, fact) <==> Holds(r.store, fact) || States(tags, NodeTag(node), fact)
  {
    hide InGroups, InUsers, OpenGroup, OpenUser;
  }

  lemma StatedNext(tags: seq<Tag>, tag: Tag, fact: Fact)
    ensures Stated(tags + [tag], fact) <==> Stated(tags, fact) || States(tags, tag, fact)
  {
    hide States;
    var more := tags + [tag];
    assert more[..|tags|] == tags && more[|tags|] == tag;
    forall i | 0 <= i < |tags| ensures more[..i] == tags[..i] && more[i] == tags[i] {}
    if Stated(tags, fact) {
      var i :| 0 <= i < |tags| && States(tags[..i], tags[i], fact);
      assert States(more[..i], more[i], fact);
    }
    if States(tags, tag, fact) { assert States(more[..|tags|], more[|tags|], fact); }
  }

  /** Whatever the lines, the store holds just what they state. */
  lemma {:induction false} TagsMean(tags: seq<Tag>, fact: Fact)
    ensures Placed(Told(tags), tags) && OwnNames(Told(tags).store)
    ensures Holds(Told(tags).store, fact) <==> Stated(tags, fact)
    decreases |tags|
  {
    if tags != [] {
      hide Read, Placed, OwnNames, Holds, Stated, States;
      var front, tag := tags[..|tags| - 1], tags[|tags| - 1];
      assert front + [tag] == tags;
      TagsMean(front, fact);
      PlacedNext(Told(front), front, tag);
      NamesNext(Told(front), tag);
      HoldsNext(Told(front), front, tag, fact);
      StatedNext(front, tag, fact);
    }
  }

  lemma ToldNext(tags: seq<Tag>, tag: Tag)
    ensures Told(tags + [tag]) == Read(Told(tags), tag)
  {
    hide Read;
    assert (tags + [tag])[..|tags|] == tags;
  }

  lemma OneMoreLine(lines: seq<string>, i: nat)
    requires i < |lines|
    ensures LineTags(lines[..i + 1]) == LineTags(lines[..i]) + [TagOf(Trim(lines[i]))]
  {
    hide TagOf, Trim;
    assert lines[..i + 1][..i] == lines[..i];
  }

  lemma NextLine(r: Reader, lines: seq<string>, i: nat)
    requires i < |lines|
    ensures ReadLines(r, lines[i..]) == ReadLines(Read(r, TagOf(Trim(lines[i]))), lines[i + 1..])
  {
    hide Read, TagOf, Trim;
    assert lines[i..][1..] == lines[i + 1..];
  }

  lemma {:induction false} LinesTell(lines: seq<string>, i: nat)
    requires i <= |lines|
    ensures ReadLines(Told(LineTags(lines[..i])), lines[i..]) == Told(LineTags(lines))
    decreases |lines| - i
  {
    hide Read, TagOf, Trim, Told, LineTags;
    if i == |lines| {
      assert lines[..i] == lines;
    } else {
      LinesTell(lines, i + 1);
      ToldNext(LineTags(lines[..i]), TagOf(Trim(lines[i])));
      OneMoreLine(lines, i);
      NextLine(Told(LineTags(lines[..i])), lines, i);
    }
  }

  /** Whatever the text, reading it gives the store that holds just what its lines state. */
  lemma TextMeans(text: string, fact: Fact)
    ensures var store := ReadText(START, text).store;
            OwnNames(store) && (Holds(store, fact) <==> Stated(TagsOf(text), fact))
  {
    hide ReadLines, Told, Holds, Stated, OwnNames, Lines;
    TextTells(text);
    TagsMean(TagsOf(text), fact);
  }

  lemma TextTells(text: string)
    ensures ReadText(START, text) == Told(TagsOf(text))
  {
    LinesTell(Lines(text), 0);
    assert Lines(text)[0..] == Lines(text) && LineTags(Lines(text)[..0]) == [];
  }
}
