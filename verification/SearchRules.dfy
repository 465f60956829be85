/** The results of a search follow the config, name every path once, and can be written, unless the
    root directory itself is listed. */
module SearchRules {
  import opened Data
  import opened Str
  import opened Metadata
  import opened Backup
  import opened BackupFrame
  import opened BackupPass
  import opened FixedConfig
  import opened Search

  /** Names in a directory: neither empty nor with a slash, and each once. */
  ghost predicate PlainNames(names: seq<Bytes>) {
    && (forall i :: 0 <= i < |names| ==> names[i] != [] && !HasSlash(names[i]))
    && (forall i, j :: 0 <= i < j < |names| ==> names[i] != names[j])
  }

  ghost predicate PlainWorld(w: World) { forall d :: PlainNames(w.list(d)) }

  /** A search tree as the parser builds it: names without slashes, siblings with different names. */
  predicate ProperTree(n: SearchNode)
    decreases n
  {
    ProperNodes(n.subnodes) && forall i :: 0 <= i < |n.subnodes| ==> ProperTree(n.subnodes[i])
  }

  predicate ProperNodes(nodes: seq<SearchNode>) {
    && (forall i :: 0 <= i < |nodes| && nodes[i].pattern.Literal? ==> nodes[i].pattern.name != [] && !HasSlash(nodes[i].pattern.name))
    && (forall i, j :: 0 <= i < j < |nodes| && nodes[i].pattern.Literal? && nodes[j].pattern.Literal? ==> nodes[i].pattern != nodes[j].pattern)
  }

  /** A node, if there is one, and its policy. */
  predicate ProperRule(r: Rule) { r.node.Some? ==> ProperTree(r.node.value) && r.policy == r.node.value.policy }

  lemma {:induction false} MatchingIsFirst(env: Env, nodes: seq<SearchNode>, name: Bytes)
    ensures FirstMatch(env, nodes, name) == if Matching(env, nodes, name) == [] then None else Some(Matching(env, nodes, name)[0])
    ensures forall i :: 0 <= i < |Matching(env, nodes, name)| ==> Matching(env, nodes, name)[i] in nodes
  {
    if nodes != [] { MatchingIsFirst(env, nodes[1..], name); }
  }

  /** Among different names the first match of a name is its own node. */
  lemma {:induction false} OwnNameMatches(env: Env, nodes: seq<SearchNode>, k: nat)
    requires ProperNodes(nodes) && !HasRegex(nodes) && k < |nodes|
    ensures nodes[k].pattern.Literal? && FirstMatch(env, nodes, nodes[k].pattern.name) == Some(nodes[k])
  {
    assert nodes[k].pattern.Literal?;
    if k > 0 {
      assert nodes[0].pattern.Literal?;
      assert ProperNodes(nodes[1..]) && !HasRegex(nodes[1..]) by {
        assert forall i :: 0 <= i < |nodes[1..]| ==> nodes[1..][i] == nodes[i + 1];
      }
      OwnNameMatches(env, nodes[1..], k - 1);
    }
  }

  /** The opened directory and the path its entries get: the same, except for the root directory. */
  predicate Opened(directory: Bytes, base: Bytes) { !EndsWithSlash(base) && (directory == base || (directory == [SLASH] && base == [])) }

  /** The name under which a directory entry is matched is the tail of its path. */
  lemma {:induction false} EntryName(directory: Bytes, base: Bytes, n: Bytes)
    requires Opened(directory, base) && n != [] && !HasSlash(n)
    ensures var name := Split(AppendPath(directory, n)).tail;
      var path := AppendPath(base, name);
      Split(path).tail == name && !EndsWithSlash(path) && name == if directory == base then n else [SLASH] + n
  {
    assert n[|n| - 1] != SLASH;
    if directory == base {
      SplitAppend(base, n);
    } else {
      SplitAppendRoot(n);
      assert AppendPath(base, [SLASH] + n) == AppendPath([SLASH], n);
    }
  }

  predicate Tidy(env: Env, rule: Rule, fs: seq<Found>, base: Bytes) {
    && AllObey(env, rule, fs)
    && (forall i, j :: 0 <= i < j < |fs| ==> fs[i].path != fs[j].path)
    && (forall i :: 0 <= i < |fs| ==> DistinctPaths(fs[i].children))
  }

  lemma {:induction false} WalkIsTidy(env: Env, w: World, path: Bytes, rule: Rule)
    requires PlainWorld(w) && ProperRule(rule) && !EndsWithSlash(path)
    requires Walk(env, w, path, rule.node, rule.policy).Some?
    ensures Tidy(env, rule, Walk(env, w, path, rule.node, rule.policy).value, path)
    decreases Room(w, path), 3
  {
    hide WalkNames, WalkNodes, Tidy;
    if IsDirect(rule.node) {
      NodesAreTidy(env, w, path, rule, 0);
    } else {
      NamesAreTidy(env, w, path, path, w.list(path), rule);
    }
  }

  lemma {:induction false} VisitIsTidy(env: Env, w: World, base: Bytes, path: Bytes, rule: Rule)
    requires PlainWorld(w) && ProperRule(rule) && !EndsWithSlash(path) && |base| < |path|
    requires Visit(env, w, base, path, rule.node, rule.policy).Some?
    ensures var f := Visit(env, w, base, path, rule.node, rule.policy).value;
      && f.path == path && f.node == rule.node && f.policy == rule.policy
      && AllObey(env, rule, f.children) && DistinctPaths(f.children)
    decreases Room(w, base), 1
  {
    hide Walk;
    if Seen(w, path, rule.node).value.Dir? { WalkIsTidy(env, w, path, rule); }
  }

  /** The paths that are still to be listed. */
  predicate PathsFrom(fs: seq<Found>, directory: Bytes, base: Bytes, names: seq<Bytes>) {
    forall i :: 0 <= i < |fs| ==> exists k :: 0 <= k < |names| && fs[i].path == AppendPath(base, Split(AppendPath(directory, names[k])).tail)
  }

  lemma {:induction false} NamesAreTidy(env: Env, w: World, directory: Bytes, base: Bytes, names: seq<Bytes>, rule: Rule)
    requires PlainWorld(w) && PlainNames(names) && ProperRule(rule) && Opened(directory, base)
    requires WalkNames(env, w, directory, base, names, Subnodes(rule.node), rule.policy).Some?
    ensures var fs := WalkNames(env, w, directory, base, names, Subnodes(rule.node), rule.policy).value;
      Tidy(env, rule, fs, base) && PathsFrom(fs, directory, base, names)
    decreases Room(w, base), 2, |names|
  {
    hide Visit, Split, HasSlash, EndsWithSlash, PlainWorld, DistinctPaths, Obeys, ProperTree, ProperNodes;
    if names != [] {
      var nodes := Subnodes(rule.node);
      var name := Split(AppendPath(directory, names[0])).tail;
      var path := AppendPath(base, name);
      var m := Matching(env, nodes, name);
      EntryName(directory, base, names[0]);
      MatchingIsFirst(env, nodes, name);
      PlainRest(names);
      NamesAreTidy(env, w, directory, base, names[1..], rule);
      var rest := WalkNames(env, w, directory, base, names[1..], nodes, rule.policy).value;
      LaterPaths(rest, directory, base, names);
      if !(m == [] && (rule.policy.NoPolicy? || Ignored(env, path))) {
        var r := if m == [] then Rule(None, rule.policy) else Rule(Some(m[0]), m[0].policy);
        MatchedRule(rule, m);
        VisitIsTidy(env, w, base, path, r);
        var f := Visit(env, w, base, path, r.node, r.policy).value;
        assert RuleFor(env, rule, path) == Some(r);
        OneMoreFound(env, rule, f, rest, base, r);
        FirstPath(f, rest, directory, base, names);
      }
    }
  }

  lemma {:induction false} PlainRest(names: seq<Bytes>)
    requires PlainNames(names) && names != []
    ensures PlainNames(names[1..])
  {
    assert forall i :: 0 <= i < |names[1..]| ==> names[1..][i] == names[i + 1];
  }

  lemma {:induction false} MatchedRule(rule: Rule, m: seq<SearchNode>)
    requires ProperRule(rule) && forall i :: 0 <= i < |m| ==> m[i] in Subnodes(rule.node)
    ensures ProperRule(if m == [] then Rule(None, rule.policy) else Rule(Some(m[0]), m[0].policy))
  {
  }

  /** Entries with different names have different paths. */
  lemma {:induction false} LaterPaths(rest: seq<Found>, directory: Bytes, base: Bytes, names: seq<Bytes>)
    requires PlainNames(names) && names != [] && Opened(directory, base) && PathsFrom(rest, directory, base, names[1..])
    ensures PathsFrom(rest, directory, base, names)
    ensures forall i :: 0 <= i < |rest| ==> rest[i].path != AppendPath(base, Split(AppendPath(directory, names[0])).tail)
  {
    hide Split, HasSlash, EndsWithSlash;
    EntryName(directory, base, names[0]);
    forall i | 0 <= i < |rest|
      ensures exists k :: 0 <= k < |names| && rest[i].path == AppendPath(base, Split(AppendPath(directory, names[k])).tail)
      ensures rest[i].path != AppendPath(base, Split(AppendPath(directory, names[0])).tail)
    {
      var k :| 0 <= k < |names[1..]| && rest[i].path == AppendPath(base, Split(AppendPath(directory, names[1..][k])).tail);
      assert names[1..][k] == names[k + 1];
      EntryName(directory, base, names[k + 1]);
      DifferentPaths(base, names[0], names[k + 1]);
    }
  }

  lemma {:induction false} DifferentPaths(base: Bytes, a: Bytes, b: Bytes)
    requires a != b
    ensures AppendPath(base, a) != AppendPath(base, b)
    ensures AppendPath(base, [SLASH] + a) != AppendPath(base, [SLASH] + b)
  {
    assert ([SLASH] + a)[1..] == a && ([SLASH] + b)[1..] == b;
    if AppendPath(base, a) == AppendPath(base, b) { AppendInjective(base, a, b); }
    if AppendPath(base, [SLASH] + a) == AppendPath(base, [SLASH] + b) { AppendInjective(base, [SLASH] + a, [SLASH] + b); }
  }

  lemma {:induction false} OneMoreFound(env: Env, rule: Rule, f: Found, rest: seq<Found>, base: Bytes, r: Rule)
    requires Tidy(env, rule, rest, base) && RuleFor(env, rule, f.path) == Some(r) && f.node == r.node && f.policy == r.policy
    requires AllObey(env, r, f.children) && DistinctPaths(f.children)
    requires forall i :: 0 <= i < |rest| ==> rest[i].path != f.path
    ensures Tidy(env, rule, [f] + rest, base)
  {
    hide RuleFor, DistinctPaths;
    assert Obeys(env, rule, f);
    var fs := [f] + rest;
    assert forall i :: 1 <= i < |fs| ==> fs[i] == rest[i - 1];
  }

  lemma {:induction false} FirstPath(f: Found, rest: seq<Found>, directory: Bytes, base: Bytes, names: seq<Bytes>)
    requires names != [] && f.path == AppendPath(base, Split(AppendPath(directory, names[0])).tail)
    requires PathsFrom(rest, directory, base, names)
    ensures PathsFrom([f] + rest, directory, base, names)
  {
    hide Split;
    var fs := [f] + rest;
    assert forall i :: 1 <= i < |fs| ==> fs[i] == rest[i - 1];
  }

  /** The paths named by the config from a position on. */
  predicate NamedFrom(fs: seq<Found>, base: Bytes, nodes: seq<SearchNode>, k: nat) {
    forall i :: 0 <= i < |fs| ==> NamedBy(fs[i].path, base, nodes, k)
  }

  predicate NamedBy(path: Bytes, base: Bytes, nodes: seq<SearchNode>, k: nat) {
    exists j :: k <= j < |nodes| && path == AppendPath(base, NodeName(nodes[j].pattern))
  }

  lemma {:induction false} NodesAreTidy(env: Env, w: World, base: Bytes, rule: Rule, k: nat)
    requires PlainWorld(w) && ProperRule(rule) && IsDirect(rule.node) && !EndsWithSlash(base) && k <= |rule.node.value.subnodes|
    requires WalkNodes(env, w, base, rule.node.value.subnodes[k..]).Some?
    ensures var fs := WalkNodes(env, w, base, rule.node.value.subnodes[k..]).value;
      Tidy(env, rule, fs, base) && NamedFrom(fs, base, rule.node.value.subnodes, k)
    decreases Room(w, base), 2, |rule.node.value.subnodes| - k
  {
    hide Visit, Split, HasSlash, EndsWithSlash, PlainWorld, DistinctPaths, Obeys, FirstMatch;
    var nodes := rule.node.value.subnodes;
    if k < |nodes| {
      assert nodes[k..][0] == nodes[k] && nodes[k..][1..] == nodes[k + 1..];
      OwnNameMatches(env, nodes, k);
      var name := nodes[k].pattern.name;
      var path := AppendPath(base, name);
      OwnPath(base, name);
      NodesAreTidy(env, w, base, rule, k + 1);
      var rest := WalkNodes(env, w, base, nodes[k + 1..]).value;
      LaterNodes(rest, base, nodes, k);
      if Exists(w, path) {
        var r := Rule(Some(nodes[k]), nodes[k].policy);
        VisitIsTidy(env, w, base, path, r);
        var f := Visit(env, w, base, path, r.node, r.policy).value;
        assert RuleFor(env, rule, path) == Some(r);
        OneMoreFound(env, rule, f, rest, base, r);
        assert NamedFrom([f] + rest, base, nodes, k) by { FirstNode(f, rest, base, nodes, k); }
      }
    }
  }

  lemma {:induction false} OwnPath(base: Bytes, name: Bytes)
    requires !EndsWithSlash(base) && name != [] && !HasSlash(name)
    ensures Split(AppendPath(base, name)).tail == name && !EndsWithSlash(AppendPath(base, name))
  {
    SplitAppend(base, name);
    assert name[|name| - 1] != SLASH;
  }

  lemma {:induction false} LaterNodes(rest: seq<Found>, base: Bytes, nodes: seq<SearchNode>, k: nat)
    requires ProperNodes(nodes) && !HasRegex(nodes) && k < |nodes| && NamedFrom(rest, base, nodes, k + 1)
    ensures NamedFrom(rest, base, nodes, k)
    ensures forall i :: 0 <= i < |rest| ==> rest[i].path != AppendPath(base, NodeName(nodes[k].pattern))
  {
    hide HasSlash;
    forall i | 0 <= i < |rest|
      ensures NamedBy(rest[i].path, base, nodes, k)
      ensures rest[i].path != AppendPath(base, NodeName(nodes[k].pattern))
    {
      assert NamedBy(rest[i].path, base, nodes, k + 1);
      var j :| k + 1 <= j < |nodes| && rest[i].path == AppendPath(base, NodeName(nodes[j].pattern));
      assert nodes[j].pattern.Literal? && nodes[k].pattern.Literal?;
      DifferentPaths(base, NodeName(nodes[k].pattern), NodeName(nodes[j].pattern));
    }
  }

  lemma {:induction false} FirstNode(f: Found, rest: seq<Found>, base: Bytes, nodes: seq<SearchNode>, k: nat)
    requires k < |nodes| && f.path == AppendPath(base, NodeName(nodes[k].pattern)) && NamedFrom(rest, base, nodes, k)
    ensures NamedFrom([f] + rest, base, nodes, k)
  {
    var fs := [f] + rest;
    assert forall i :: 1 <= i < |fs| ==> fs[i] == rest[i - 1];
  }

  /** A search with a parsed config yields what a backup expects: every result carries the node and
      policy that its path has by the config, and no path appears twice in a directory. */
  lemma {:induction false} SearchFollowsConfig(env: Env, w: World, root: SearchNode)
    requires PlainWorld(w) && ProperTree(root) && SearchAll(env, w, root).Some?
    ensures AllObey(env, RootRule(root), SearchAll(env, w, root).value) && DistinctPaths(SearchAll(env, w, root).value)
  {
    hide WalkNames, WalkNodes, ProperTree;
    if IsDirect(Some(root)) {
      assert root.subnodes[0..] == root.subnodes;
      NodesAreTidy(env, w, [], RootRule(root), 0);
    } else {
      NamesAreTidy(env, w, [SLASH], [], w.list([SLASH]), RootRule(root));
    }
  }

  // ----- whether the results can be written -----

  predicate LoadableName(f: Found) { ValidName(Split(f.path).tail) }

  /** What the config must name for the results to be written: no dot elements and no null bytes. */
  predicate LoadableNodes(nodes: seq<SearchNode>) {
    forall i :: 0 <= i < |nodes| && nodes[i].pattern.Literal? ==> ValidName(nodes[i].pattern.name)
  }

  /** Listing the root directory itself yields paths with two leading slashes; the names that are
      written for them are ones that the reader rejects. So top-level results can be loaded again
      exactly when the root directory was not listed. */
  lemma {:induction false} RootListingIsNotLoadable(env: Env, w: World, root: SearchNode)
    requires PlainWorld(w) && ProperTree(root) && LoadableNodes(root.subnodes)
    requires SearchAll(env, w, root).Some? && SearchAll(env, w, root).value != []
    ensures var fs := SearchAll(env, w, root).value;
      && ((forall i :: 0 <= i < |fs| ==> LoadableName(fs[i])) <==> IsDirect(Some(root)))
      && (!IsDirect(Some(root)) ==> forall i :: 0 <= i < |fs| ==> !LoadableName(fs[i]) && |fs[i].path| >= 2 && fs[i].path[..2] == [SLASH, SLASH])
  {
    hide WalkNames, WalkNodes, Split, HasSlash;
    var fs := SearchAll(env, w, root).value;
    if IsDirect(Some(root)) {
      assert root.subnodes[0..] == root.subnodes;
      NodesAreTidy(env, w, [], RootRule(root), 0);
      forall i | 0 <= i < |fs| ensures LoadableName(fs[i]) {
        assert NamedBy(fs[i].path, [], root.subnodes, 0);
        var j :| 0 <= j < |root.subnodes| && fs[i].path == AppendPath([], NodeName(root.subnodes[j].pattern));
        assert root.subnodes[j].pattern.Literal?;
        OwnPath([], root.subnodes[j].pattern.name);
      }
    } else {
      NamesAreTidy(env, w, [SLASH], [], w.list([SLASH]), RootRule(root));
      forall i | 0 <= i < |fs| ensures !LoadableName(fs[i]) && |fs[i].path| >= 2 && fs[i].path[..2] == [SLASH, SLASH] {
        var names := w.list([SLASH]);
        var k :| 0 <= k < |names| && fs[i].path == AppendPath([], Split(AppendPath([SLASH], names[k])).tail);
        EntryName([SLASH], [], names[k]);
        SlashIsInvalid(names[k]);
      }
      assert !LoadableName(fs[0]);
    }
  }

  lemma {:induction false} SlashIsInvalid(n: Bytes)
    ensures !ValidName([SLASH] + n)
  {
    assert ([SLASH] + n)[0] == SLASH;
  }
}
