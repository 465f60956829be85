/** Which policy a path has: that of the nearest path above it, or itself, that the config gives one. */
module ConfigPolicy {
  import opened Data
  import opened Str
  import opened Metadata
  import opened Backup
  import opened FixedConfig
  import opened Chains
  import opened Search
  import opened SearchRules
  import opened SearchTree
  import opened ConfigTree
  import opened FileSystem
  import opened Sightings
  import opened Session
  import opened UntrackedRuns

  /** No element of a configured path is a regular expression. */
  predicate AllLiteral(nodes: Arena) { forall p :: p in nodes && p != [] ==> PatternOf(p).Literal? }

  /** A path is configured, or above one that is. */
  ghost predicate OnTheWay(e: Explicit, p: Bytes) { p == [] || exists q :: q in e && p in Lineage(q) }

  /** A path drops out of the backup: it is not on the way to a configured one, and it is ignored, or nothing
      above it has a policy. */
  ghost predicate Dropped(env: Env, e: Explicit, p: Bytes) {
    !OnTheWay(e, p) && ((exists i :: 0 <= i < |env.ignore| && env.matches(env.ignore[i], p)) || Nearest(e, p) == NoPolicy)
  }

  ghost predicate SomeDropped(env: Env, e: Explicit, links: Links) { exists k :: 0 <= k < |links| && Dropped(env, e, links[k]) }

  lemma {:induction false} ChildParts(dir: Bytes, path: Bytes)
    requires IsChild(dir, path) && !EndsWithSlash(path) && !EndsWithSlash(dir)
    ensures var name := path[|dir| + 1..];
      path == AppendPath(dir, name) && !HasSlash(name) && name != [] && Split(path) == PathSplit(dir, name)
  {
    var name := path[|dir| + 1..];
    assert path == AppendPath(dir, name);
    assert path[|path| - 1] != SLASH && path[|dir|] == SLASH;
    SplitAppend(dir, name);
  }

  /** Of the subnodes of a directory the one that matches a name is the node of that path. */
  lemma {:induction false} MatchesOwnNode(env: Env, nodes: Arena, c: Config, dir: Bytes, path: Bytes)
    requires ProperConfig(c) && Parsed(nodes, c.explicit) && AllLiteral(nodes) && dir in nodes
    requires IsChild(dir, path) && !EndsWithSlash(path) && !EndsWithSlash(dir)
    ensures MatchesSearchSubnodes(env, path, Some(TreeOf(nodes, dir))) == if path in nodes then Some(TreeOf(nodes, path)) else None
  {
    hide Split, ExactNodes, Right, HasSlash, EndsWithSlash, Lists;
    ChildParts(dir, path);
    var name := path[|dir| + 1..];
    var subs, tree := nodes[dir].subnodes, TreeOf(nodes, dir);
    forall i | 0 <= i < |subs|
      ensures tree.subnodes[i].pattern.Literal? && (tree.subnodes[i].pattern == Literal(name) <==> subs[i] == path)
      ensures subs[i] in nodes && tree.subnodes[i] == TreeOf(nodes, subs[i])
    {
      Subnode(nodes, dir, i);
      NamedAs(nodes, c, dir, i, name);
    }
    if path in nodes {
      var i := PositionOf(nodes, dir, path);
      FirstIs(env, tree.subnodes, i, name);
    } else {
      NoneIs(env, tree.subnodes, name);
    }
  }

  lemma {:induction false} PositionOf(nodes: Arena, dir: Bytes, path: Bytes) returns (i: nat)
    requires Linked(nodes) && dir in nodes && path in nodes && path != [] && Split(path).head == dir
    ensures i < |nodes[dir].subnodes| && nodes[dir].subnodes[i] == path
    ensures forall j :: 0 <= j < |nodes[dir].subnodes| && j != i ==> nodes[dir].subnodes[j] != path
  {
    hide Split;
    assert Lists(nodes.Keys, nodes[dir].subnodes, dir);
    assert path in nodes[dir].subnodes;
    i :| 0 <= i < |nodes[dir].subnodes| && nodes[dir].subnodes[i] == path;
  }

  lemma {:induction false} NamedAs(nodes: Arena, c: Config, dir: Bytes, i: nat, name: Bytes)
    requires ProperConfig(c) && Parsed(nodes, c.explicit) && AllLiteral(nodes) && dir in nodes && i < |nodes[dir].subnodes|
    ensures var q := nodes[dir].subnodes[i];
      PatternOf(q).Literal? && (PatternOf(q) == Literal(name) <==> q == AppendPath(dir, name))
      && TreeOf(nodes, dir).subnodes[i].pattern == PatternOf(q)
  {
    hide Split, ExactNodes, Right, ProperPath;
    Subnode(nodes, dir, i);
    var q := nodes[dir].subnodes[i];
    NodesAreProper(nodes, c, q);
    UpIsProper(q);
    assert PatternOf(q).name == Split(q).tail;
    if q == AppendPath(dir, name) { AppendInjective(dir, name, Split(q).tail); }
  }

  lemma {:induction false} FirstIs(env: Env, nodes: seq<SearchNode>, i: nat, name: Bytes)
    requires i < |nodes| && (forall j :: 0 <= j < |nodes| ==> nodes[j].pattern.Literal?)
    requires forall j :: 0 <= j < |nodes| ==> (nodes[j].pattern == Literal(name) <==> j == i)
    ensures FirstMatch(env, nodes, name) == Some(nodes[i])
  {
    if i > 0 {
      assert nodes[0].pattern != Literal(name);
      assert forall j :: 0 <= j < |nodes[1..]| ==> nodes[1..][j] == nodes[j + 1];
      FirstIs(env, nodes[1..], i - 1, name);
    } else {
      assert nodes[0].pattern == Literal(name);
    }
  }

  lemma {:induction false} NoneIs(env: Env, nodes: seq<SearchNode>, name: Bytes)
    requires forall j :: 0 <= j < |nodes| ==> nodes[j].pattern.Literal? && nodes[j].pattern != Literal(name)
    ensures FirstMatch(env, nodes, name) == None
  {
    if nodes != [] {
      assert nodes[0].pattern.Literal?;
      assert forall j :: 0 <= j < |nodes[1..]| ==> nodes[1..][j] == nodes[j + 1];
      NoneIs(env, nodes[1..], name);
    }
  }

  /** The rule that holds in a directory. */
  ghost predicate HoldsIn(nodes: Arena, e: Explicit, dir: Bytes, rule: Rule)
    requires Linked(nodes)
  {
    && rule.policy == Nearest(e, dir)
    && if dir in nodes then rule.node == Some(TreeOf(nodes, dir)) else rule.node == None && rule.policy != NoPolicy
  }

  /** One step down. */
  lemma {:induction false} RuleBelow(env: Env, nodes: Arena, c: Config, dir: Bytes, rule: Rule, path: Bytes)
    requires ProperConfig(c) && Parsed(nodes, c.explicit) && AllLiteral(nodes) && HoldsIn(nodes, c.explicit, dir, rule)
    requires IsChild(dir, path) && !EndsWithSlash(path) && !EndsWithSlash(dir)
    ensures RuleFor(env, rule, path).None? <==> Dropped(env, c.explicit, path)
    ensures RuleFor(env, rule, path).Some? ==> HoldsIn(nodes, c.explicit, path, RuleFor(env, rule, path).value)
  {
    hide Split, HasSlash, EndsWithSlash, IsChild, Lists, Lineage;
    var e := c.explicit;
    ChildParts(dir, path);
    assert path in nodes <==> OnTheWay(e, path) by { assert ExactNodes(nodes, e); }
    assert path in nodes ==> Up(path) in nodes && Up(path) == dir;
    assert Nearest(e, path) == if path in e then e[path] else Nearest(e, dir);
    assert path in e ==> path in nodes;
    if dir in nodes { MatchesOwnNode(env, nodes, c, dir, path); }
    if path in nodes { assert RightAt(nodes[path], e, path); }
  }

  lemma {:induction false} PolicyBelow(env: Env, nodes: Arena, c: Config, dir: Bytes, rule: Rule, links: Links)
    requires ProperConfig(c) && Parsed(nodes, c.explicit) && AllLiteral(nodes) && HoldsIn(nodes, c.explicit, dir, rule)
    requires Ladder(links, dir) && !EndsWithSlash(dir)
    ensures PolicyBy(env, rule, links) == if SomeDropped(env, c.explicit, links) then None else Some(Nearest(c.explicit, Goal(links)))
    decreases |links|
  {
    hide RuleFor, Parsed, ProperConfig, EndsWithSlash, Dropped, IsChild, HoldsIn, Nearest, Linked, AllLiteral;
    assert Linked(nodes) by { LinkedWhenParsed(nodes, c.explicit); }
    RuleBelow(env, nodes, c, dir, rule, links[0]);
    if RuleFor(env, rule, links[0]).Some? {
      HoldsPolicy(nodes, c.explicit, links[0], RuleFor(env, rule, links[0]).value);
      if |links| > 1 {
        PolicyBelow(env, nodes, c, links[0], RuleFor(env, rule, links[0]).value, links[1..]);
        DroppedLater(env, c.explicit, links);
        assert Goal(links[1..]) == Goal(links);
      }
    } else {
      assert Dropped(env, c.explicit, links[0]);
    }
  }

  lemma {:induction false} HoldsPolicy(nodes: Arena, e: Explicit, dir: Bytes, rule: Rule)
    requires Linked(nodes) && HoldsIn(nodes, e, dir, rule)
    ensures rule.policy == Nearest(e, dir)
  {
    hide Nearest, Linked;
  }

  lemma {:induction false} LinkedWhenParsed(nodes: Arena, e: Explicit)
    requires Parsed(nodes, e)
    ensures Linked(nodes)
  {
    hide Linked;
  }

  lemma {:induction false} DroppedLater(env: Env, e: Explicit, links: Links)
    requires |links| > 1 && !Dropped(env, e, links[0])
    ensures SomeDropped(env, e, links) <==> SomeDropped(env, e, links[1..])
  {
    hide Dropped;
    if SomeDropped(env, e, links) {
      var k :| 0 <= k < |links| && Dropped(env, e, links[k]);
      assert links[1..][k - 1] == links[k];
    }
    if SomeDropped(env, e, links[1..]) {
      var k :| 0 <= k < |links[1..]| && Dropped(env, e, links[1..][k]);
      assert links[k + 1] == links[1..][k];
    }
  }

  /** The policy of every path, from the text of a config without regular expressions among its paths: that of
      the nearest configured path above it or itself; none if on the way down something drops out. */
  lemma {:induction false} PolicyIsNearest(env: Env, config: Bytes, nodes: Arena, links: Links)
    requires ReadConfig(config).Some? && Parsed(nodes, ReadConfig(config).value.explicit) && AllLiteral(nodes)
    requires Ladder(links, [])
    ensures var e := ReadConfig(config).value.explicit;
      PolicyBy(env, RootRule(TreeOf(nodes, [])), links) == if SomeDropped(env, e, links) then None else Some(Nearest(e, Goal(links)))
  {
    hide ReadConfig, Parsed, AllLiteral, Ladder, Nearest;
    var c := ReadConfig(config).value;
    ParsedIsProper(config);
    RootHolds(nodes, c.explicit);
    PolicyBelow(env, nodes, c, [], RootRule(TreeOf(nodes, [])), links);
  }

  lemma {:induction false} RootHolds(nodes: Arena, e: Explicit)
    requires Parsed(nodes, e)
    ensures Linked(nodes) && HoldsIn(nodes, e, [], RootRule(TreeOf(nodes, [])))
  {
    hide Nearest, ExactNodes, Lists;
    assert RightAt(nodes[[]], e, []);
  }
}
