/** Resolving a user's permission nodes through a graph of groups that may be cyclic or name
    groups that do not exist. Sets are walked in an arbitrary order. */
module Permissions {
  import opened Wrappers
  import opened Text

  datatype PermissionUser = PermissionUser(uuid: string, nodes: set<string>, groups: set<string>)
  datatype PermissionGroup = PermissionGroup(name: string, nodes: set<string>, parents: set<string>)
  type Groups = map<string, PermissionGroup>
  datatype PermissionStore = PermissionStore(users: map<string, PermissionUser>, groups: Groups)

  const ALL: string := "*"

  // --- Rules --------------------------------------------------------------------------

  datatype Rule = Rule(node: string, allow: bool)

  /** A raw node is trimmed, denies when it starts with a minus, and may name nothing at all. */
  function ParseRule(raw: string): Option<Rule> {
    var trimmed := Trim(raw);
    var rule := if trimmed != [] && trimmed[0] == '-' then Rule(Trim(trimmed[1..]), false) else Rule(trimmed, true);
    if rule.node == [] then None else Some(rule)
  }

  ghost predicate Allows(rules: set<string>, node: string) {
    exists raw :: raw in rules && ParseRule(raw) == Some(Rule(node, true))
  }

  ghost predicate Denies(rules: set<string>, node: string) {
    exists raw :: raw in rules && ParseRule(raw) == Some(Rule(node, false))
  }

  function NodesOf(rules: set<string>): set<string> {
    set raw | raw in rules && ParseRule(raw).Some? :: ParseRule(raw).value.node
  }

  /** What a set of rules amounts to: a node is allowed when some rule allows it and none denies it. */
  ghost function Resolved(rules: set<string>): map<string, bool> {
    map node | node in NodesOf(rules) :: !Denies(rules, node)
  }

  lemma ResolvedExact(rules: set<string>, node: string)
    ensures node in Resolved(rules) <==> Allows(rules, node) || Denies(rules, node)
    ensures node in Resolved(rules) ==> (Resolved(rules)[node] <==> Allows(rules, node) && !Denies(rules, node))
  {}

  /** The decisions after one more rule, given those so far. */
  function WithRule(decisions: map<string, bool>, raw: string): map<string, bool> {
    match ParseRule(raw)
    case None => decisions
    case Some(Rule(node, allow)) =>
      if node in decisions && !decisions[node] then decisions else decisions[node := allow]
  }

  lemma ResolvedStep(rules: set<string>, raw: string)
    ensures Resolved(rules + {raw}) == WithRule(Resolved(rules), raw)
  {
    hide ParseRule;
    var more := rules + {raw};
    forall node ensures Denies(more, node) <==> Denies(rules, node) || ParseRule(raw) == Some(Rule(node, false)) {
      if ParseRule(raw) == Some(Rule(node, false)) { assert raw in more; }
    }
    assert NodesOf(more) == NodesOf(rules) + if ParseRule(raw).Some? then {ParseRule(raw).value.node} else {};
    if ParseRule(raw).Some? {
      var node := ParseRule(raw).value.node;
      ResolvedExact(rules, node);
    }
  }

  // --- Groups -------------------------------------------------------------------------

  predicate IsParent(groups: Groups, name: string, parent: string) {
    name in groups && parent in groups[name].parents
  }

  /** A chain of memberships from one of the roots to a group name. */
  ghost predicate Chain(groups: Groups, roots: set<string>, path: seq<string>) {
    && path != [] && path[0] in roots
    && forall i, j :: 0 <= i && j == i + 1 && j < |path| ==> IsParent(groups, path[i], path[j])
  }

  ghost predicate Reachable(groups: Groups, roots: set<string>, name: string) {
    exists path :: Chain(groups, roots, path) && path[|path| - 1] == name
  }

  /** All rules of the existing groups among `names`. */
  function RulesOf(groups: Groups, names: set<string>): set<string> {
    set name, raw | name in names && name in groups && raw in groups[name].nodes :: raw
  }

  /** The rules that bear on a user: the user's own, and those of every group the user is in,
      directly or through parents. */
  ghost function RulesFor(groups: Groups, user: PermissionUser): set<string> {
    user.nodes + RulesOf(groups, set name | name in groups && Reachable(groups, user.groups, name))
  }

  ghost function Effective(store: PermissionStore, uuid: string): map<string, bool> {
    if uuid in store.users then Resolved(RulesFor(store.groups, store.users[uuid])) else map[]
  }

  ghost predicate SomeGroupAllows(groups: Groups, roots: set<string>, node: string) {
    exists name :: name in groups && Reachable(groups, roots, name) && Allows(groups[name].nodes, node)
  }

  ghost predicate SomeGroupDenies(groups: Groups, roots: set<string>, node: string) {
    exists name :: name in groups && Reachable(groups, roots, name) && Denies(groups[name].nodes, node)
  }

  /** A node is denied exactly when the user or a group reachable from the user's groups denies it,
      and allowed exactly when one of them allows it and none denies it. */
  lemma EffectiveExact(store: PermissionStore, uuid: string, node: string)
    requires uuid in store.users
    ensures var user, effective := store.users[uuid], Effective(store, uuid);
            var denied := Denies(user.nodes, node) || SomeGroupDenies(store.groups, user.groups, node);
            var allowed := Allows(user.nodes, node) || SomeGroupAllows(store.groups, user.groups, node);
            && (node in effective && !effective[node] <==> denied)
            && (node in effective && effective[node] <==> allowed && !denied)
  {
    hide ParseRule, Resolved, Reachable;
    var user := store.users[uuid];
    var rules := RulesFor(store.groups, user);
    ResolvedExact(rules, node);
    FromGroups(store.groups, user, node, true);
    FromGroups(store.groups, user, node, false);
  }

  /** A rule bearing on a user comes from the user or from a reachable group. */
  lemma FromGroups(groups: Groups, user: PermissionUser, node: string, allow: bool)
    ensures (exists raw :: raw in RulesFor(groups, user) && ParseRule(raw) == Some(Rule(node, allow)))
         <==> (exists raw :: raw in user.nodes && ParseRule(raw) == Some(Rule(node, allow)))
              || (exists name :: name in groups && Reachable(groups, user.groups, name)
                    && exists raw :: raw in groups[name].nodes && ParseRule(raw) == Some(Rule(node, allow)))
  {}

  // --- Resolution ---------------------------------------------------------------------

  /** One resolution under way. */
  class Resolution {
    var visited: set<string>
    var decisions: map<string, bool>
    ghost var applied: set<string>  // rules applied so far
    ghost var finished: set<string> // groups left again after all their parents

    constructor ()
      ensures visited == {} && decisions == map[] && applied == {} && finished == {}
    {
      visited, decisions := {}, map[];
      applied, finished := {}, {};
    }

    /** Applies raw nodes in some order. */
    method ApplyRawNodes(rawNodes: set<string>)
      requires decisions == Resolved(applied)
      modifies this`decisions, this`applied
      ensures applied == old(applied) + rawNodes
      ensures decisions == Resolved(applied)
    {
      hide ParseRule, Resolved;
      var rest := rawNodes;
      while rest != {}
        invariant rest <= rawNodes && applied == old(applied) + (rawNodes - rest)
        invariant decisions == Resolved(applied)
      {
        var raw :| raw in rest;
        rest := rest - {raw};
        ResolvedStep(applied, raw);
        applied := applied + {raw};
        ApplyRawNode(raw);
        assert applied == old(applied) + (rawNodes - rest);
      }
      assert rawNodes - rest == rawNodes;
    }

    method ApplyRawNode(text: string)
      modifies this`decisions
      ensures decisions == WithRule(old(decisions), text)
    {
      hide Trim;
      var raw := Trim(text);
      if raw == [] { return; }
      var node, allow := raw, true;
      if raw[0] == '-' { node, allow := Trim(raw[1..]), false; }
      if node == [] { return; }
      if node in decisions && !decisions[node] { return; }
      decisions := decisions[node := allow];
    }

    /** Between visits: the rules applied are those of the finished groups, every group finished
        has had its parents visited, and only groups reachable from the roots are visited. */
    ghost predicate Valid(groups: Groups, roots: set<string>)
      reads this
    {
      && finished <= visited
      && applied == RulesOf(groups, finished)
      && decisions == Resolved(applied)
      && (forall name :: name in finished && name in groups ==> groups[name].parents <= visited)
      && (forall name :: name in visited ==> Reachable(groups, roots, name))
    }

    /** Visits a group depth first; the groups still open are as before. */
    method ApplyGroup(name: string, groups: Groups, ghost roots: set<string>)
      requires Valid(groups, roots) && Reachable(groups, roots, name)
      modifies this
      ensures Valid(groups, roots) && name in visited && old(visited) <= visited
      ensures visited - finished == old(visited - finished)
      decreases groups.Keys - visited
    {
      hide Reachable, Resolved, RulesOf;
      if name in visited { return; }
      visited := visited + {name};
      if name !in groups {
        FinishMissing(groups, finished, name);
        finished := finished + {name};
        assert visited - finished == old(visited - finished);
        return;
      }
      ghost var open := visited - finished;
      var parents := groups[name].parents;
      while parents != {}
        invariant parents <= groups[name].parents <= visited + parents
        invariant Valid(groups, roots) && old(visited) + {name} <= visited
        invariant visited - finished == open
      {
        var parent :| parent in parents;
        parents := parents - {parent};
        ReachableStep(groups, roots, name, parent);
        assert groups.Keys - visited < old(groups.Keys - visited) by {
          assert name in groups.Keys - old(visited);
        }
        ApplyGroup(parent, groups, roots);
      }
      ApplyRawNodes(groups[name].nodes);
      FinishGroup(groups, finished, name);
      finished := finished + {name};
      assert visited - finished == open - {name} == old(visited - finished);
    }
  }

  lemma FinishMissing(groups: Groups, finished: set<string>, name: string)
    requires name !in groups
    ensures RulesOf(groups, finished + {name}) == RulesOf(groups, finished)
  {}

  lemma FinishGroup(groups: Groups, finished: set<string>, name: string)
    requires name in groups
    ensures RulesOf(groups, finished + {name}) == RulesOf(groups, finished) + groups[name].nodes
  {}

  lemma ReachableStep(groups: Groups, roots: set<string>, name: string, parent: string)
    requires Reachable(groups, roots, name) && name in groups && parent in groups[name].parents
    ensures Reachable(groups, roots, parent)
  {
    var path :| Chain(groups, roots, path) && path[|path| - 1] == name;
    assert Chain(groups, roots, path + [parent]);
  }

  lemma RootReachable(groups: Groups, roots: set<string>, name: string)
    requires name in roots
    ensures Reachable(groups, roots, name)
  {
    assert Chain(groups, roots, [name]);
  }

  /** Names that contain the roots and the parents of all their groups contain whatever is reachable. */
  lemma {:induction false} ClosedContains(groups: Groups, roots: set<string>, names: set<string>, path: seq<string>)
    requires roots <= names && Chain(groups, roots, path)
    requires forall name :: name in names && name in groups ==> groups[name].parents <= names
    ensures path[|path| - 1] in names
    decreases |path|
  {
    if |path| > 1 {
      var front := path[..|path| - 1];
      assert Chain(groups, roots, front);
      ClosedContains(groups, roots, names, front);
      assert path[|path| - 2] == front[|front| - 1];
    }
  }

  lemma AllVisited(groups: Groups, user: PermissionUser, visited: set<string>)
    requires user.groups <= visited
    requires forall name :: name in visited && name in groups ==> groups[name].parents <= visited
    requires forall name :: name in visited ==> Reachable(groups, user.groups, name)
    ensures RulesOf(groups, visited) + user.nodes == RulesFor(groups, user)
  {
    hide RulesOf;
    var reachable := set name | name in groups && Reachable(groups, user.groups, name);
    forall name | name in reachable ensures name in visited {
      var path :| Chain(groups, user.groups, path) && path[|path| - 1] == name;
      ClosedContains(groups, user.groups, visited, path);
    }
    OnlyExisting(groups, visited, reachable);
  }

  lemma OnlyExisting(groups: Groups, a: set<string>, b: set<string>)
    requires forall name :: name in groups ==> (name in a <==> name in b)
    ensures RulesOf(groups, a) == RulesOf(groups, b)
  {}

  lemma NothingResolved()
    ensures Resolved({}) == map[]
    ensures forall groups: Groups :: RulesOf(groups, {}) == {}
  {}

  /** Whatever order the sets are walked in, the result is the same. */
  method EffectiveDecisions(store: PermissionStore, uuid: string) returns (decisions: map<string, bool>)
    ensures decisions == Effective(store, uuid)
  {
    hide Resolved, Reachable, RulesOf, RulesFor;
    if uuid !in store.users { return map[]; }
    var user := store.users[uuid];
    var resolution := new Resolution();
    NothingResolved();
    var rest := user.groups;
    while rest != {}
      invariant rest <= user.groups <= resolution.visited + rest
      invariant resolution.Valid(store.groups, user.groups)
      invariant resolution.visited == resolution.finished
    {
      var name :| name in rest;
      rest := rest - {name};
      RootReachable(store.groups, user.groups, name);
      resolution.ApplyGroup(name, store.groups, user.groups);
      assert resolution.visited == resolution.finished + (resolution.visited - resolution.finished);
    }
    AllVisited(store.groups, user, resolution.visited);
    resolution.ApplyRawNodes(user.nodes);
    return resolution.decisions;
  }

  // --- Looking a node up --------------------------------------------------------------

  /** The decision of the longest wildcard that ends before `end`, or else that of the catch-all. */
  function LookupBefore(decisions: map<string, bool>, node: string, end: nat): bool
    requires end <= |node|
  {
    var dot := LastIndex(node, '.', end);
    if dot < 0 then ALL in decisions && decisions[ALL]
    else if node[..dot] + ".*" in decisions then decisions[node[..dot] + ".*"]
    else LookupBefore(decisions, node, dot)
  }

  function Lookup(decisions: map<string, bool>, node: string): bool {
    if node == [] then false
    else if node in decisions then decisions[node]
    else LookupBefore(decisions, node, |node|)
  }

  /** The wildcard that covers all below the dot at `i` decides, unless a longer one or the node itself does. */
  lemma {:induction false} LongestWildcardDecides(decisions: map<string, bool>, node: string, i: nat, end: nat)
    requires i < end <= |node| && node[i] == '.' && node[..i] + ".*" in decisions
    requires forall j :: i < j < end && node[j] == '.' ==> node[..j] + ".*" !in decisions
    ensures LookupBefore(decisions, node, end) == decisions[node[..i] + ".*"]
    decreases end
  {
    var dot := LastIndex(node, '.', end);
    if dot != i {
      LongestWildcardDecides(decisions, node, i, dot);
    }
  }

  lemma {:induction false} CatchAllDecides(decisions: map<string, bool>, node: string, end: nat)
    requires end <= |node|
    requires forall j :: 0 <= j < end && node[j] == '.' ==> node[..j] + ".*" !in decisions
    ensures LookupBefore(decisions, node, end) <==> ALL in decisions && decisions[ALL]
  {
    var dot := LastIndex(node, '.', end);
    if dot >= 0 {
      CatchAllDecides(decisions, node, dot);
    }
  }

  method CheckNode(decisions: map<string, bool>, text: string) returns (allowed: bool)
    ensures allowed == Lookup(decisions, Trim(text))
  {
    hide Trim, LastIndex;
    var node := Trim(text);
    if node == [] { return false; }
    if node in decisions { return decisions[node]; }
    var current := node;
    while true
      invariant current <= node && LookupBefore(decisions, node, |current|) == LookupBefore(decisions, node, |node|)
      decreases |current|
    {
      var dot := LastIndex(current, '.', |current|);
      SameLastIndex(current, node, |current|);
      if dot < 0 { break; }
      var prefix := current[..dot];
      assert prefix == node[..dot];
      var wildcard := prefix + ".*";
      if wildcard in decisions { return decisions[wildcard]; }
      current := prefix;
    }
    return ALL in decisions && decisions[ALL];
  }

  lemma SameLastIndex(s: string, t: string, end: nat)
    requires s <= t && end <= |s|
    ensures LastIndex(s, '.', end) == LastIndex(t, '.', end)
  {}

  // --- A denial only restricts --------------------------------------------------------

  ghost predicate Has(store: PermissionStore, uuid: string, text: string) {
    Lookup(Effective(store, uuid), Trim(text))
  }

  lemma {:induction false} DenyingNeverGrants(decisions: map<string, bool>, denied: string, node: string, end: nat)
    requires end <= |node|
    ensures LookupBefore(decisions[denied := false], node, end) ==> LookupBefore(decisions, node, end)
  {
    var dot := LastIndex(node, '.', end);
    if dot >= 0 {
      DenyingNeverGrants(decisions, denied, node, dot);
    }
  }

  lemma MinusDenies(raw: string)
    requires Trim(raw) != [] && Trim(raw)[0] == '-' && Trim(Trim(raw)[1..]) != []
    ensures ParseRule(raw).Some? && !ParseRule(raw).value.allow
  {
    hide Trim;
  }

  /** A text that starts with a minus, added to any group, gives no user anything. */
  lemma DenyRuleOnlyRestricts(store: PermissionStore, name: string, raw: string, uuid: string, text: string)
    requires name in store.groups
    requires Trim(raw) != [] && Trim(raw)[0] == '-' && Trim(Trim(raw)[1..]) != []
    ensures var group := store.groups[name];
            var stricter := store.(groups := store.groups[name := group.(nodes := group.nodes + {raw})]);
            Has(stricter, uuid, text) ==> Has(store, uuid, text)
  {
    hide ParseRule, Resolved, LookupBefore, Trim;
    MinusDenies(raw);
    if uuid in store.users {
      var user, group := store.users[uuid], store.groups[name];
      var groups := store.groups[name := group.(nodes := group.nodes + {raw})];
      SameReachable(store.groups, groups, user.groups);
      var before, after := RulesFor(store.groups, user), RulesFor(groups, user);
      assert after == before || after == before + {raw} by {
        OneMoreRule(store.groups, name, raw, user);
      }
      ResolvedStep(before, raw);
      DenyingNeverGrants(Resolved(before), ParseRule(raw).value.node, Trim(text), |Trim(text)|);
    }
  }

  lemma OneMoreRule(groups: Groups, name: string, raw: string, user: PermissionUser)
    requires name in groups
    ensures var more := groups[name := groups[name].(nodes := groups[name].nodes + {raw})];
            RulesFor(more, user) == RulesFor(groups, user) || RulesFor(more, user) == RulesFor(groups, user) + {raw}
  {
    hide Reachable, RulesOf;
    var more := groups[name := groups[name].(nodes := groups[name].nodes + {raw})];
    SameReachable(groups, more, user.groups);
    var reachable := set n | n in groups && Reachable(groups, user.groups, n);
    assert reachable == set n | n in more && Reachable(more, user.groups, n);
    OneMoreNode(groups, more, reachable, name, raw);
  }

  lemma OneMoreNode(groups: Groups, more: Groups, names: set<string>, name: string, raw: string)
    requires name in groups && names <= groups.Keys
    requires more == groups[name := groups[name].(nodes := groups[name].nodes + {raw})]
    ensures RulesOf(more, names) == if name in names then RulesOf(groups, names) + {raw} else RulesOf(groups, names)
  {
    forall r | r in RulesOf(groups, names) ensures r in RulesOf(more, names) {
      var n :| n in names && n in groups && r in groups[n].nodes;
      assert r in more[n].nodes;
    }
    forall r | r in RulesOf(more, names) ensures r in RulesOf(groups, names) || (r == raw && name in names) {
      var n :| n in names && n in more && r in more[n].nodes;
      if r != raw { assert r in groups[n].nodes; }
    }
    if name in names { assert raw in more[name].nodes; }
  }

  lemma SameReachable(a: Groups, b: Groups, roots: set<string>)
    requires a.Keys == b.Keys && forall name :: name in a ==> a[name].parents == b[name].parents
    ensures forall name :: Reachable(a, roots, name) <==> Reachable(b, roots, name)
  {}
}
