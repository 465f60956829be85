/** What a search finds is what the file system has: which paths it reports, and with which entries, said
    of the world and the config alone. */
module Sightings {
  import opened Data
  import opened Str
  import opened Metadata
  import opened Backup
  import opened BackupFrame
  import opened BackupPass
  import opened FixedConfig
  import opened Chains
  import opened TimeTravel
  import opened Search
  import opened SearchRules
  import opened FileSystem

  // ----- what the file system shows -----

  /** A directory is read, unless the config only names some paths in it. */
  predicate IsRead(rule: Rule) {
    || rule.node.None? || !rule.node.value.policy.NoPolicy?
    || exists i :: 0 <= i < |rule.node.value.subnodes| && rule.node.value.subnodes[i].pattern.Regex?
  }

  /** Symlinks are followed only where the config has something to say about what is below them. */
  function Shown(w: World, path: Bytes, rule: Rule): Option<Entry> {
    if rule.node.Some? && |rule.node.value.subnodes| > 0 then w.stat(path) else w.lstat(path)
  }

  /** A name in a directory. The root directory is opened as "/", which its names keep. */
  predicate Listed(w: World, base: Bytes, name: Bytes) {
    if base == [] then name != [] && name[0] == 47 && name[1..] in w.list([47]) else name in w.list(base)
  }

  predicate Offered(w: World, rule: Rule, base: Bytes, name: Bytes) {
    if IsRead(rule) then Listed(w, base, name)
    else name != [] && 47 !in name && |AppendPath(base, name)| <= w.limit && w.lstat(AppendPath(base, name)).Some?
  }

  predicate HasPath(fs: seq<Found>, path: Bytes) { exists i :: 0 <= i < |fs| && fs[i].path == path }

  predicate InDirectory(base: Bytes, path: Bytes) { |path| > |base| && path == base + [47] + path[|base| + 1..] }

  /** Two subnodes of the config match the same name. */
  predicate Ambiguous(env: Env, rule: Rule, name: Bytes) {
    rule.node.Some? &&
    var nodes := rule.node.value.subnodes;
    exists i, j :: 0 <= i < j < |nodes| && PatternMatches(env, nodes[i].pattern, name) && PatternMatches(env, nodes[j].pattern, name)
  }

  /** The results inside a directory: each is a path that is there and that the config wants, with its rule
      and its entry; every such path has a result; no name is ambiguous; and the same holds inside every
      directory found. */
  ghost predicate Genuine(env: Env, w: World, rule: Rule, base: Bytes, fs: seq<Found>)
    decreases fs, 0
  {
    && (forall i :: 0 <= i < |fs| ==> GenuineOne(env, w, rule, base, fs[i]))
    && (forall name :: Offered(w, rule, base, name) && RuleFor(env, rule, base + [47] + name).Some? ==> HasPath(fs, base + [47] + name))
    && (IsRead(rule) ==> forall name :: Listed(w, base, name) ==> !Ambiguous(env, rule, name))
  }

  ghost predicate GenuineOne(env: Env, w: World, rule: Rule, base: Bytes, f: Found)
    decreases f, 1
  {
    var r := Rule(f.node, f.policy);
    && InDirectory(base, f.path) && Offered(w, rule, base, f.path[|base| + 1..])
    && RuleFor(env, rule, f.path) == Some(r) && Shown(w, f.path, r) == Some(f.entry)
    && if f.entry.Dir? then Genuine(env, w, r, f.path, f.children) else f.children == []
  }

  // ----- the walk -----

  lemma {:induction false} DirectIsNotRead(rule: Rule)
    ensures IsDirect(rule.node) <==> !IsRead(rule)
  {
  }

  lemma {:induction false} WalkIsGenuine(env: Env, w: World, path: Bytes, rule: Rule)
    requires PlainWorld(w) && ProperRule(rule) && !EndsWithSlash(path) && path != []
    requires Walk(env, w, path, rule.node, rule.policy).Some?
    ensures Genuine(env, w, rule, path, Walk(env, w, path, rule.node, rule.policy).value)
    decreases Room(w, path), 3
  {
    hide WalkNames, WalkNodes, GenuineOne, PlainWorld, RuleFor, Ambiguous;
    DirectIsNotRead(rule);
    var fs := Walk(env, w, path, rule.node, rule.policy).value;
    if IsDirect(rule.node) {
      assert rule.node.value.subnodes[0..] == rule.node.value.subnodes;
      NodesAreGenuine(env, w, path, rule, 0);
      DirectIsComplete(env, w, path, rule, fs);
    } else {
      ListIsPlain(w, path);
      NamesAreGenuine(env, w, path, path, w.list(path), rule);
      forall name | Offered(w, rule, path, name) && RuleFor(env, rule, path + [47] + name).Some? ensures HasPath(fs, path + [47] + name) {
        var k :| 0 <= k < |w.list(path)| && w.list(path)[k] == name;
        EntryName(path, path, name);
      }
      forall name | Listed(w, path, name) ensures !Ambiguous(env, rule, name) {
        var k :| 0 <= k < |w.list(path)| && w.list(path)[k] == name;
        EntryName(path, path, name);
      }
    }
  }

  lemma {:induction false} ListIsPlain(w: World, path: Bytes)
    requires PlainWorld(w)
    ensures PlainNames(w.list(path))
  {
  }

  lemma {:induction false} VisitIsGenuine(env: Env, w: World, rule: Rule, base: Bytes, path: Bytes, r: Rule)
    requires PlainWorld(w) && ProperRule(r) && !EndsWithSlash(path) && |base| < |path|
    requires InDirectory(base, path) && Offered(w, rule, base, path[|base| + 1..]) && RuleFor(env, rule, path) == Some(r)
    requires Visit(env, w, base, path, r.node, r.policy).Some?
    ensures GenuineOne(env, w, rule, base, Visit(env, w, base, path, r.node, r.policy).value)
    decreases Room(w, base), 1
  {
    hide Walk, Genuine, RuleFor, Offered, PlainWorld;
    if Seen(w, path, r.node).value.Dir? { WalkIsGenuine(env, w, path, r); }
  }

  function EntryPath(directory: Bytes, base: Bytes, name: Bytes): Bytes { AppendPath(base, Split(AppendPath(directory, name)).tail) }

  lemma {:induction false} EntryIsOffered(w: World, rule: Rule, directory: Bytes, base: Bytes, n: Bytes)
    requires Opened(directory, base) && n != [] && !HasSlash(n) && n in w.list(directory) && IsRead(rule)
    requires base != [] || directory == [SLASH]
    ensures var path := EntryPath(directory, base, n);
      InDirectory(base, path) && Offered(w, rule, base, path[|base| + 1..]) && !EndsWithSlash(path)
  {
    hide Split, HasSlash, EndsWithSlash;
    EntryName(directory, base, n);
    var name := Split(AppendPath(directory, n)).tail;
    assert AppendPath(base, name)[|base| + 1..] == name;
    assert ([SLASH] + n)[1..] == n;
  }

  lemma {:induction false} MatchingTwice(env: Env, nodes: seq<SearchNode>, name: Bytes, i: nat, j: nat)
    requires i < j < |nodes| && PatternMatches(env, nodes[i].pattern, name) && PatternMatches(env, nodes[j].pattern, name)
    ensures |Matching(env, nodes, name)| > 1
  {
    if i > 0 { MatchingTwice(env, nodes[1..], name, i - 1, j - 1); } else { MatchingOnce(env, nodes[1..], name, j - 1); }
  }

  lemma {:induction false} MatchingOnce(env: Env, nodes: seq<SearchNode>, name: Bytes, i: nat)
    requires i < |nodes| && PatternMatches(env, nodes[i].pattern, name)
    ensures |Matching(env, nodes, name)| > 0
  {
    if i > 0 { MatchingOnce(env, nodes[1..], name, i - 1); }
  }

  lemma {:induction false} OneMatch(env: Env, rule: Rule, name: Bytes)
    requires |Matching(env, Subnodes(rule.node), name)| <= 1
    ensures !Ambiguous(env, rule, name)
  {
    if Ambiguous(env, rule, name) {
      var nodes := rule.node.value.subnodes;
      var i, j :| 0 <= i < j < |nodes| && PatternMatches(env, nodes[i].pattern, name) && PatternMatches(env, nodes[j].pattern, name);
      MatchingTwice(env, nodes, name, i, j);
    }
  }

  lemma {:induction false} NamesAreGenuine(env: Env, w: World, directory: Bytes, base: Bytes, names: seq<Bytes>, rule: Rule)
    requires PlainWorld(w) && PlainNames(names) && ProperRule(rule) && Opened(directory, base)
    requires (base != [] || directory == [SLASH]) && IsRead(rule) && forall k :: 0 <= k < |names| ==> names[k] in w.list(directory)
    requires WalkNames(env, w, directory, base, names, Subnodes(rule.node), rule.policy).Some?
    ensures var fs := WalkNames(env, w, directory, base, names, Subnodes(rule.node), rule.policy).value;
      && (forall i :: 0 <= i < |fs| ==> GenuineOne(env, w, rule, base, fs[i]))
      && (forall k :: 0 <= k < |names| && RuleFor(env, rule, EntryPath(directory, base, names[k])).Some? ==>
            HasPath(fs, EntryPath(directory, base, names[k])))
      && (forall k :: 0 <= k < |names| ==> !Ambiguous(env, rule, Split(AppendPath(directory, names[k])).tail))
    decreases Room(w, base), 2, |names|
  {
    hide Visit, Split, HasSlash, EndsWithSlash, PlainWorld, GenuineOne, ProperTree, ProperNodes, IsRead, Offered, Ambiguous;
    if names != [] {
      var nodes := Subnodes(rule.node);
      var name := Split(AppendPath(directory, names[0])).tail;
      var path := AppendPath(base, name);
      var m := Matching(env, nodes, name);
      EntryName(directory, base, names[0]);
      EntryIsOffered(w, rule, directory, base, names[0]);
      MatchingIsFirst(env, nodes, name);
      PlainRest(names);
      assert forall k :: 0 <= k < |names[1..]| ==> names[1..][k] == names[k + 1];
      NamesAreGenuine(env, w, directory, base, names[1..], rule);
      var fs := WalkNames(env, w, directory, base, names, nodes, rule.policy).value;
      var rest := WalkNames(env, w, directory, base, names[1..], nodes, rule.policy).value;
      if m == [] && (rule.policy.NoPolicy? || Ignored(env, path)) {
        assert fs == rest && RuleFor(env, rule, path).None?;
      } else {
        var r := if m == [] then Rule(None, rule.policy) else Rule(Some(m[0]), m[0].policy);
        MatchedRule(rule, m);
        assert RuleFor(env, rule, path) == Some(r);
        VisitIsGenuine(env, w, rule, base, path, r);
        var f := Visit(env, w, base, path, r.node, r.policy).value;
        assert fs == [f] + rest && f.path == path by { VisitPath(env, w, base, path, r); }
      }
      HasMore(fs, rest);
      OneMatch(env, rule, name);
      forall k | 0 <= k < |names| ensures !Ambiguous(env, rule, Split(AppendPath(directory, names[k])).tail) {
        if k > 0 { assert names[1..][k - 1] == names[k]; }
      }
      forall k | 0 <= k < |names| && RuleFor(env, rule, EntryPath(directory, base, names[k])).Some?
        ensures HasPath(fs, EntryPath(directory, base, names[k]))
      {
        if k > 0 {
          assert names[1..][k - 1] == names[k];
        } else {
          assert fs[0].path == path;
        }
      }
    }
  }

  lemma {:induction false} VisitPath(env: Env, w: World, base: Bytes, path: Bytes, r: Rule)
    requires |base| < |path| && Visit(env, w, base, path, r.node, r.policy).Some?
    ensures Visit(env, w, base, path, r.node, r.policy).value.path == path
  {
    hide Walk;
  }

  lemma {:induction false} HasMore(fs: seq<Found>, rest: seq<Found>)
    requires fs == rest || (fs != [] && fs[1..] == rest)
    ensures forall p :: HasPath(rest, p) ==> HasPath(fs, p)
  {
    forall p | HasPath(rest, p) ensures HasPath(fs, p) {
      var i :| 0 <= i < |rest| && rest[i].path == p;
      if fs != rest { assert fs[i + 1] == rest[i]; }
    }
  }

  lemma {:induction false} NodesAreGenuine(env: Env, w: World, base: Bytes, rule: Rule, k: nat)
    requires PlainWorld(w) && ProperRule(rule) && IsDirect(rule.node) && !EndsWithSlash(base) && k <= |rule.node.value.subnodes|
    requires WalkNodes(env, w, base, rule.node.value.subnodes[k..]).Some?
    ensures var nodes := rule.node.value.subnodes;
      var fs := WalkNodes(env, w, base, nodes[k..]).value;
      && (forall i :: 0 <= i < |fs| ==> GenuineOne(env, w, rule, base, fs[i]))
      && (forall j :: k <= j < |nodes| && Exists(w, AppendPath(base, NodeName(nodes[j].pattern))) ==>
            HasPath(fs, AppendPath(base, NodeName(nodes[j].pattern))))
    decreases Room(w, base), 2, |rule.node.value.subnodes| - k
  {
    hide Visit, Split, HasSlash, EndsWithSlash, PlainWorld, GenuineOne, FirstMatch;
    var nodes := rule.node.value.subnodes;
    if k < |nodes| {
      assert nodes[k..][0] == nodes[k] && nodes[k..][1..] == nodes[k + 1..];
      OwnNameMatches(env, nodes, k);
      var name := nodes[k].pattern.name;
      var path := AppendPath(base, name);
      OwnPath(base, name);
      NodesAreGenuine(env, w, base, rule, k + 1);
      var fs, rest := WalkNodes(env, w, base, nodes[k..]).value, WalkNodes(env, w, base, nodes[k + 1..]).value;
      if Exists(w, path) {
        var r := Rule(Some(nodes[k]), nodes[k].policy);
        assert RuleFor(env, rule, path) == Some(r);
        NameIsOffered(w, rule, base, name);
        VisitIsGenuine(env, w, rule, base, path, r);
        VisitPath(env, w, base, path, r);
        assert fs == [Visit(env, w, base, path, r.node, r.policy).value] + rest && fs[0].path == path;
      }
      HasMore(fs, rest);
    }
  }

  lemma {:induction false} NameIsOffered(w: World, rule: Rule, base: Bytes, name: Bytes)
    requires IsDirect(rule.node) && name != [] && !HasSlash(name) && Exists(w, AppendPath(base, name))
    ensures var path := AppendPath(base, name); InDirectory(base, path) && Offered(w, rule, base, path[|base| + 1..])
  {
    DirectIsNotRead(rule);
    assert AppendPath(base, name)[|base| + 1..] == name;
  }

  /** What the config names in a directory is named by a node of its own. */
  lemma {:induction false} DirectIsComplete(env: Env, w: World, base: Bytes, rule: Rule, fs: seq<Found>)
    requires ProperRule(rule) && IsDirect(rule.node) && !EndsWithSlash(base)
    requires forall j :: 0 <= j < |rule.node.value.subnodes| && Exists(w, AppendPath(base, NodeName(rule.node.value.subnodes[j].pattern))) ==>
      HasPath(fs, AppendPath(base, NodeName(rule.node.value.subnodes[j].pattern)))
    ensures forall name :: Offered(w, rule, base, name) && RuleFor(env, rule, base + [47] + name).Some? ==> HasPath(fs, base + [47] + name)
  {
    hide HasPath, Split, EndsWithSlash;
    DirectIsNotRead(rule);
    var nodes := rule.node.value.subnodes;
    forall name | Offered(w, rule, base, name) && RuleFor(env, rule, base + [47] + name).Some? ensures HasPath(fs, base + [47] + name) {
      OwnPath(base, name);
      assert FirstMatch(env, nodes, name).Some?;
      var j := MatchIsNamed(env, nodes, name);
      assert Exists(w, AppendPath(base, NodeName(nodes[j].pattern)));
    }
  }

  lemma {:induction false} MatchIsNamed(env: Env, nodes: seq<SearchNode>, name: Bytes) returns (j: nat)
    requires !HasRegex(nodes) && FirstMatch(env, nodes, name).Some?
    ensures j < |nodes| && nodes[j].pattern == Literal(name)
  {
    assert nodes[0].pattern.Literal?;
    if nodes[0].pattern.name == name {
      j := 0;
    } else {
      assert forall i :: 0 <= i < |nodes[1..]| ==> nodes[1..][i] == nodes[i + 1];
      var i := MatchIsNamed(env, nodes[1..], name);
      j := i + 1;
    }
  }

  /** A whole search finds exactly what the file system has and the config wants. */
  lemma {:induction false} SearchIsGenuine(env: Env, w: World, root: SearchNode)
    requires PlainWorld(w) && ProperTree(root) && SearchAll(env, w, root).Some?
    ensures Genuine(env, w, RootRule(root), [], SearchAll(env, w, root).value)
  {
    hide WalkNames, WalkNodes, GenuineOne, PlainWorld, RuleFor, ProperTree, Split, Ambiguous;
    var rule, fs := RootRule(root), SearchAll(env, w, root).value;
    DirectIsNotRead(rule);
    if IsDirect(Some(root)) {
      assert root.subnodes[0..] == root.subnodes;
      NodesAreGenuine(env, w, [], rule, 0);
      DirectIsComplete(env, w, [], rule, fs);
    } else {
      var names := w.list([SLASH]);
      ListIsPlain(w, [SLASH]);
      NamesAreGenuine(env, w, [SLASH], [], names, rule);
      forall name | Offered(w, rule, [], name) && RuleFor(env, rule, [] + [47] + name).Some? ensures HasPath(fs, [] + [47] + name) {
        var k :| 0 <= k < |names| && names[k] == name[1..];
        EntryName([SLASH], [], names[k]);
        assert name == [SLASH] + names[k];
        assert EntryPath([SLASH], [], names[k]) == [] + [47] + name;
      }
      forall name | Listed(w, [], name) ensures !Ambiguous(env, rule, name) {
        var k :| 0 <= k < |names| && names[k] == name[1..];
        EntryName([SLASH], [], names[k]);
        assert name == [SLASH] + names[k];
      }
    }
  }

  // ----- one path -----

  /** The links lead from a directory to a path, one element at a time. */
  predicate Ladder(links: Links, dir: Bytes)
    decreases |links|
  {
    IsChild(dir, links[0]) && !EndsWithSlash(links[0]) && (|links| > 1 ==> Ladder(links[1..], links[0]))
  }

  /** What the file system shows of a path, by the directories above it. Special files are not backed up. */
  function WorldSight(env: Env, w: World, rule: Rule, base: Bytes, links: Links): Option<Entry>
    decreases |links|
  {
    var path := links[0];
    var r := RuleFor(env, rule, path);
    if r.None? || |path| <= |base| || !Offered(w, rule, base, path[|base| + 1..]) then None
    else
      var e := Shown(w, path, r.value);
      if e.None? || (|links| == 1 && e.value.Other?) || (|links| > 1 && !e.value.Dir?) then None
      else if |links| == 1 then e
      else WorldSight(env, w, r.value, path, links[1..])
  }

  lemma {:induction false} FindFoundIs(fs: seq<Found>, i: nat)
    requires i < |fs| && forall j, k :: 0 <= j < k < |fs| ==> fs[j].path != fs[k].path
    ensures FindFound(fs, fs[i].path) == if fs[i].entry.Other? then None else Some(fs[i])
  {
    FindFoundIn(fs, fs[i].path);
    if FindFound(fs, fs[i].path).Some? {
      var j :| 0 <= j < |fs| && fs[j] == FindFound(fs, fs[i].path).value;
    }
  }

  /** What a search sees of a path is what the file system shows. */
  lemma {:induction false} SightIsGenuine(env: Env, w: World, rule: Rule, base: Bytes, fs: seq<Found>, links: Links)
    requires Genuine(env, w, rule, base, fs) && DistinctPaths(fs) && Ladder(links, base)
    ensures EntryOf(Sight(fs, links)) == WorldSight(env, w, rule, base, links)
    decreases |links|
  {
    hide RuleFor, Offered, Shown, EndsWithSlash;
    var path := links[0];
    var name := path[|base| + 1..];
    assert path == base + [47] + name;
    if HasPath(fs, path) {
      var i :| 0 <= i < |fs| && fs[i].path == path;
      assert GenuineOne(env, w, rule, base, fs[i]);
      FindFoundIs(fs, i);
      if |links| > 1 && fs[i].entry.Dir? { SightIsGenuine(env, w, Rule(fs[i].node, fs[i].policy), path, fs[i].children, links[1..]); }
    } else {
      FindFoundIn(fs, path);
      assert FindFound(fs, path).None?;
    }
  }
}
