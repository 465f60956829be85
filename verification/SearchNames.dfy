/** The results of a search carry names that can be written to the metadata and read back, as long as
    the root directory itself is not listed. */
module SearchNames {
  import opened Data
  import opened Str
  import opened Metadata
  import opened Backup
  import opened Codec
  import opened FixedConfig
  import opened Naming
  import opened Search
  import opened SearchRules

  /** What every file system guarantees: file names are valid path elements, link targets have no null
      bytes, and lengths fit 64 bits. */
  ghost predicate UsualWorld(w: World) {
    && PlainWorld(w) && w.limit <= SIZE_MAX
    && (forall d, i :: 0 <= i < |w.list(d)| ==> ValidName(w.list(d)[i]))
    && (forall p :: w.lstat(p).Some? ==> FitsState(StateOf(w.lstat(p).value)))
    && (forall p :: w.stat(p).Some? ==> FitsState(StateOf(w.stat(p).value)))
  }

  /** A search tree that names valid path elements only, and has no unknown policies. */
  predicate LoadableTree(n: SearchNode)
    decreases n
  {
    FitsPolicy(n.policy) && LoadableNodes(n.subnodes) && forall i :: 0 <= i < |n.subnodes| ==> LoadableTree(n.subnodes[i])
  }

  predicate LoadableRule(r: Rule) {
    FitsPolicy(r.policy) && (r.node.Some? ==> LoadableTree(r.node.value) && r.policy == r.node.value.policy)
  }

  /** A path element below a directory. */
  predicate Element(base: Bytes, path: Bytes) {
    ValidName(Split(path).tail) && path == AppendPath(base, Split(path).tail) && !EndsWithSlash(path)
  }

  lemma {:induction false} ElementOf(base: Bytes, name: Bytes)
    requires !EndsWithSlash(base) && ValidName(name)
    ensures Element(base, AppendPath(base, name)) && Split(AppendPath(base, name)).tail == name
  {
    hide Split;
    OwnPath(base, name);
  }

  lemma {:induction false} WalkIsWritable(env: Env, w: World, path: Bytes, rule: Rule)
    requires UsualWorld(w) && LoadableRule(rule) && !EndsWithSlash(path) && Walk(env, w, path, rule.node, rule.policy).Some?
    ensures AllWritable(Walk(env, w, path, rule.node, rule.policy).value, path)
    decreases Room(w, path), 3
  {
    hide WalkNames, WalkNodes, Writable, ValidName, EndsWithSlash, UsualWorld;
    if IsDirect(rule.node) {
      NodesAreWritable(env, w, path, rule.node.value.subnodes);
    } else {
      assert forall i :: 0 <= i < |w.list(path)| ==> ValidName(w.list(path)[i]) by { ListIsValid(w, path); }
      NamesAreWritable(env, w, path, w.list(path), rule);
    }
  }

  lemma {:induction false} ListIsValid(w: World, path: Bytes)
    requires UsualWorld(w)
    ensures forall i :: 0 <= i < |w.list(path)| ==> ValidName(w.list(path)[i])
  {
    hide ValidName, PlainWorld;
  }

  lemma {:induction false} VisitIsWritable(env: Env, w: World, base: Bytes, path: Bytes, rule: Rule)
    requires UsualWorld(w) && LoadableRule(rule) && |base| < |path| && Element(base, path)
    requires Visit(env, w, base, path, rule.node, rule.policy).Some?
    ensures Writable(Visit(env, w, base, path, rule.node, rule.policy).value, base)
    decreases Room(w, base), 1
  {
    hide Walk, Split, ValidName, EndsWithSlash, PlainWorld, LoadableTree;
    var e := Seen(w, path, rule.node).value;
    if e.Dir? { WalkIsWritable(env, w, path, rule); }
  }

  lemma {:induction false} NamesAreWritable(env: Env, w: World, base: Bytes, names: seq<Bytes>, rule: Rule)
    requires UsualWorld(w) && LoadableRule(rule) && !EndsWithSlash(base)
    requires forall i :: 0 <= i < |names| ==> ValidName(names[i])
    requires WalkNames(env, w, base, base, names, Subnodes(rule.node), rule.policy).Some?
    ensures AllWritable(WalkNames(env, w, base, base, names, Subnodes(rule.node), rule.policy).value, base)
    decreases Room(w, base), 2, |names|
  {
    hide Visit, Split, ValidName, EndsWithSlash, UsualWorld, Writable, LoadableTree, Element;
    if names != [] {
      var nodes := Subnodes(rule.node);
      ElementOf(base, names[0]);
      var name := names[0];
      var path := AppendPath(base, name);
      assert Split(AppendPath(base, names[0])).tail == name;
      var m := Matching(env, nodes, name);
      MatchingIsFirst(env, nodes, name);
      NamesAreWritable(env, w, base, names[1..], rule);
      if !(m == [] && (rule.policy.NoPolicy? || Ignored(env, path))) {
        var r := if m == [] then Rule(None, rule.policy) else Rule(Some(m[0]), m[0].policy);
        MatchedIsLoadable(rule, m);
        VisitIsWritable(env, w, base, path, r);
      }
    }
  }

  lemma {:induction false} MatchedIsLoadable(rule: Rule, m: seq<SearchNode>)
    requires LoadableRule(rule) && forall i :: 0 <= i < |m| ==> m[i] in Subnodes(rule.node)
    ensures LoadableRule(if m == [] then Rule(None, rule.policy) else Rule(Some(m[0]), m[0].policy))
  {
    hide LoadableNodes;
    if m != [] {
      var nodes := Subnodes(rule.node);
      assert m[0] in nodes;
      var i :| 0 <= i < |nodes| && nodes[i] == m[0];
      assert LoadableTree(nodes[i]);
    }
  }

  lemma {:induction false} NodesAreWritable(env: Env, w: World, base: Bytes, nodes: seq<SearchNode>)
    requires UsualWorld(w) && !HasRegex(nodes) && !EndsWithSlash(base) && LoadableNodes(nodes)
    requires forall i :: 0 <= i < |nodes| ==> LoadableTree(nodes[i])
    requires WalkNodes(env, w, base, nodes).Some?
    ensures AllWritable(WalkNodes(env, w, base, nodes).value, base)
    decreases Room(w, base), 2, |nodes|
  {
    hide Visit, Split, ValidName, EndsWithSlash, UsualWorld, Writable, Element;
    if nodes != [] {
      var n := nodes[0];
      assert n.pattern.Literal? && ValidName(n.pattern.name);
      var path := AppendPath(base, n.pattern.name);
      ElementOf(base, n.pattern.name);
      assert forall i :: 0 <= i < |nodes[1..]| ==> nodes[1..][i] == nodes[i + 1];
      NodesAreWritable(env, w, base, nodes[1..]);
      if Exists(w, path) { VisitIsWritable(env, w, base, path, Rule(Some(n), n.policy)); }
    }
  }

  /** Everything that a search finds can be written, unless it lists the root directory. */
  lemma {:induction false} SearchIsWritable(env: Env, w: World, root: SearchNode)
    requires UsualWorld(w) && LoadableTree(root) && IsDirect(Some(root)) && SearchAll(env, w, root).Some?
    ensures AllWritable(SearchAll(env, w, root).value, [])
  {
    hide WalkNodes, UsualWorld, Writable;
    NodesAreWritable(env, w, [], root.subnodes);
  }
}
