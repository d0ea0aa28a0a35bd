/** What a permission check answers, said of the raw texts a store holds. */
module PermissionChecks {
  import opened Text
  import opened Permissions
  import opened Wrappers

  /** The text stands among the user's own nodes, or among those of a group the user is in, directly
      or through parents. */
  ghost predicate BearsOn(store: PermissionStore, uuid: string, raw: string) {
    && uuid in store.users
    && var user := store.users[uuid];
       || raw in user.nodes
       || exists name ::
            name in store.groups && Reachable(store.groups, user.groups, name) && raw in store.groups[name].nodes
  }

  /** Some text is a minus followed by the node. */
  ghost predicate Denied(store: PermissionStore, uuid: string, node: string) {
    exists raw, x :: BearsOn(store, uuid, raw) && Trim(raw) == "-" + x && Trim(x) == node
  }

  /** Some text is the node itself. */
  ghost predicate Named(store: PermissionStore, uuid: string, node: string) {
    node != [] && node[0] != '-' && exists raw :: BearsOn(store, uuid, raw) && Trim(raw) == node
  }

  ghost predicate Mentioned(store: PermissionStore, uuid: string, node: string) {
    Denied(store, uuid, node) || Named(store, uuid, node)
  }

  ghost predicate Granted(store: PermissionStore, uuid: string, node: string) {
    Named(store, uuid, node) && !Denied(store, uuid, node)
  }

  lemma BearingRules(store: PermissionStore, uuid: string, raw: string)
    requires uuid in store.users
    ensures raw in RulesFor(store.groups, store.users[uuid]) <==> BearsOn(store, uuid, raw)
  {}

  lemma DenyingText(rules: set<string>, node: string)
    requires node != []
    ensures Denies(rules, node) <==> exists raw, x :: raw in rules && Trim(raw) == "-" + x && Trim(x) == node
  {
    hide Trim;
    if Denies(rules, node) {
      var raw :| raw in rules && ParseRule(raw) == Some(Rule(node, false));
      assert Trim(raw) == "-" + Trim(raw)[1..];
    }
    if raw, x :| raw in rules && Trim(raw) == "-" + x && Trim(x) == node {
      assert Trim(raw)[1..] == x;
      assert ParseRule(raw) == Some(Rule(node, false));
    }
  }

  lemma AllowingText(rules: set<string>, node: string)
    requires node != []
    ensures Allows(rules, node) <==> node[0] != '-' && exists raw :: raw in rules && Trim(raw) == node
  {
    hide Trim;
    if raw :| raw in rules && Trim(raw) == node && node[0] != '-' {
      assert ParseRule(raw) == Some(Rule(node, true));
    }
  }

  /** A node is decided exactly when some text that bears on the user names or denies it, and then a
      denial wins. */
  lemma DecisionsOnText(store: PermissionStore, uuid: string, node: string)
    requires uuid in store.users && node != []
    ensures var effective := Effective(store, uuid);
            && (node in effective <==> Mentioned(store, uuid, node))
            && (node in effective ==> (effective[node] <==> Granted(store, uuid, node)))
  {
    hide Trim, ParseRule, Resolved, RulesFor, BearsOn, Allows, Denies;
    var rules := RulesFor(store.groups, store.users[uuid]);
    forall raw ensures raw in rules <==> BearsOn(store, uuid, raw) { BearingRules(store, uuid, raw); }
    ResolvedExact(rules, node);
    DenyingText(rules, node);
    AllowingText(rules, node);
  }

  // --- The rule that decides ----------------------------------------------------------

  /** A wildcard covers everything below the dot at `i`. */
  function Wildcard(node: string, i: nat): string
    requires i <= |node|
  {
    node[..i] + ".*"
  }

  /** No wildcard longer than that of the dot at `i` is mentioned. */
  ghost predicate NoLonger(store: PermissionStore, uuid: string, node: string, i: int) {
    forall j :: 0 <= j < |node| && i < j && node[j] == '.' ==> !Mentioned(store, uuid, Wildcard(node, j))
  }

  /** The rule that decides about a node: the node itself if mentioned, otherwise its longest
      wildcard that is, otherwise the catch-all. */
  ghost predicate Decides(store: PermissionStore, uuid: string, node: string, rule: string) {
    if Mentioned(store, uuid, node) then rule == node
    else
      || (exists i :: 0 <= i < |node| && node[i] == '.' && rule == Wildcard(node, i)
                      && Mentioned(store, uuid, rule) && NoLonger(store, uuid, node, i))
      || (rule == ALL && NoLonger(store, uuid, node, -1))
  }

  lemma DecidingRuleAnswers(store: PermissionStore, uuid: string, node: string, rule: string)
    requires uuid in store.users && node != [] && Decides(store, uuid, node, rule)
    ensures Lookup(Effective(store, uuid), node) <==> Granted(store, uuid, rule)
  {
    hide Effective, Mentioned, Granted, LookupBefore;
    var effective := Effective(store, uuid);
    DecisionsOnText(store, uuid, node);
    DecisionsOnText(store, uuid, rule);
    GrantedIsMentioned(store, uuid, rule);
    forall j | 0 <= j < |node| && node[j] == '.'
      ensures node[..j] + ".*" in effective <==> Mentioned(store, uuid, Wildcard(node, j))
    {
      DecisionsOnText(store, uuid, Wildcard(node, j));
    }
    if !Mentioned(store, uuid, node) {
      if i :| 0 <= i < |node| && node[i] == '.' && rule == Wildcard(node, i)
              && Mentioned(store, uuid, rule) && NoLonger(store, uuid, node, i) {
        LongestWildcardDecides(effective, node, i, |node|);
      } else {
        CatchAllDecides(effective, node, |node|);
      }
    }
  }

  lemma GrantedIsMentioned(store: PermissionStore, uuid: string, rule: string)
    ensures Granted(store, uuid, rule) ==> Mentioned(store, uuid, rule)
  {}

  /** There always is such a rule. */
  lemma SomeRuleDecides(store: PermissionStore, uuid: string, node: string)
    ensures exists rule :: Decides(store, uuid, node, rule)
  {
    hide Mentioned;
    if Mentioned(store, uuid, node) {
      assert Decides(store, uuid, node, node);
    } else {
      LongestOrNone(store, uuid, node, |node|);
      if NoLonger(store, uuid, node, -1) {
        assert Decides(store, uuid, node, ALL);
      } else {
        var i :| 0 <= i < |node| && node[i] == '.' && Mentioned(store, uuid, Wildcard(node, i))
                 && NoLonger(store, uuid, node, i);
        assert Decides(store, uuid, node, Wildcard(node, i));
      }
    }
  }

  lemma {:induction false} LongestOrNone(store: PermissionStore, uuid: string, node: string, end: nat)
    requires end <= |node| && NoLonger(store, uuid, node, end - 1)
    ensures NoLonger(store, uuid, node, -1)
      || exists i :: 0 <= i < |node| && node[i] == '.' && Mentioned(store, uuid, Wildcard(node, i))
                     && NoLonger(store, uuid, node, i)
  {
    hide Mentioned;
    if end > 0 && !(node[end - 1] == '.' && Mentioned(store, uuid, Wildcard(node, end - 1))) {
      LongestOrNone(store, uuid, node, end - 1);
    }
  }

  lemma NobodyHasNothing(node: string)
    ensures !Lookup(map[], node)
  {
    if node != [] { CatchAllDecides(map[], node, |node|); }
  }

  /** A known user has a permission exactly when the rule that decides about its trimmed name grants it. */
  method HasPermission(store: PermissionStore, uuid: string, text: string) returns (allowed: bool)
    ensures allowed <==>
              && uuid in store.users && Trim(text) != []
              && exists rule :: Decides(store, uuid, Trim(text), rule) && Granted(store, uuid, rule)
  {
    hide Trim, Lookup, Decides, Granted;
    var decisions := EffectiveDecisions(store, uuid);
    allowed := CheckNode(decisions, text);
    var node := Trim(text);
    if uuid !in store.users {
      NobodyHasNothing(node);
    } else if node != [] {
      SomeRuleDecides(store, uuid, node);
      forall rule | Decides(store, uuid, node, rule)
        ensures Lookup(decisions, node) <==> Granted(store, uuid, rule)
      {
        DecidingRuleAnswers(store, uuid, node, rule);
      }
    } else {
      NothingIsRefused(decisions);
    }
  }

  lemma NothingIsRefused(decisions: map<string, bool>)
    ensures !Lookup(decisions, [])
  {}
}
