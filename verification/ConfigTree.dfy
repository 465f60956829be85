/** From the text of a config to the tree that the search uses: what the parser builds is what the
    search and the metadata rely on. */
module ConfigTree {
  import opened Data
  import opened Str
  import opened Metadata
  import opened Codec
  import opened Search
  import opened SearchRules
  import opened SearchNames
  import opened SearchTree

  // ----- the tree in the parser's table -----

  /** How newNode() reads the last element of a path: a second slash starts a regular expression. */
  function PatternOf(path: Bytes): Pattern {
    var tail := Split(path).tail;
    if |tail| >= 2 && tail[0] == SLASH then Regex(tail[1..]) else Literal(tail)
  }

  ghost function TreeOf(nodes: Arena, p: Bytes): SearchNode
    requires Linked(nodes) && p in nodes
    decreases Longest(nodes.Keys) - |p|
  {
    SearchNode(PatternOf(p), nodes[p].policy,
               seq(|nodes[p].subnodes|, i requires 0 <= i < |nodes[p].subnodes| =>
                 Subnode(nodes, p, i);
                 TreeOf(nodes, nodes[p].subnodes[i])))
  }

  // ----- paths of a parsed config -----

  /** The root, or a path without a slash at its end, without dot elements and without null bytes. */
  predicate ProperPath(p: Bytes) {
    p != [] ==> p[0] == SLASH && !EndsWithSlash(p) && !PathContainsDotElements(p) && 0 !in p
  }

  predicate ProperConfig(c: Config) {
    !c.section.Unknown? && forall p :: p in c.explicit ==> ProperPath(p) && !c.explicit[p].Unknown?
  }

  /** Slashes at the end hide no dot elements. */
  lemma {:induction false} StrippedDots(line: Bytes)
    requires !PathContainsDotElements(line) && StripSlashes(line) != []
    ensures !PathContainsDotElements(StripSlashes(line))
  {
    var s := StripSlashes(line);
    if EndsWithSlash(line) {
      SplitIsSplit(line);
      assert IsSplit(line, PathSplit(s, line[|s| + 1..])) by {
        assert line == s + [SLASH] + line[|s| + 1..];
        assert HasSlash(line) by { assert line[|s|] == SLASH; }
        assert IsSlashesThenName(line[|s| + 1..], |line| - |s| - 1);
      }
      SplitIsUnique(line, Split(line), PathSplit(s, line[|s| + 1..]));
    }
  }

  lemma {:induction false} LineKeepsProper(c: Config, line: Bytes)
    requires ProperConfig(c) && 0 !in line && ReadLine(c, line).Some?
    ensures ProperConfig(ReadLine(c, line).value)
  {
    hide PathContainsDotElements, StripSlashes;
    var path := StripSlashes(line);
    if line != [] && line[0] == SLASH && !PathContainsDotElements(line) && path != [] {
      StrippedDots(line);
      assert path[0] == line[0];
    }
  }

  lemma {:induction false} LinesKeepProper(c: Config, lines: seq<Bytes>)
    requires ProperConfig(c) && (forall i :: 0 <= i < |lines| ==> 0 !in lines[i]) && ReadLines(c, lines).Some?
    ensures ProperConfig(ReadLines(c, lines).value)
    decreases |lines|
  {
    hide ReadLine, ProperConfig;
    if lines != [] {
      LineKeepsProper(c, lines[0]);
      LinesKeepProper(ReadLine(c, lines[0]).value, lines[1..]);
    }
  }

  lemma {:induction false} LinesHaveNoNull(s: Bytes)
    requires 0 !in s
    ensures forall i :: 0 <= i < |Lines(s)| ==> 0 !in Lines(s)[i]
    decreases |s|
  {
    if s != [] {
      var n := LineEnd(s);
      LinesHaveNoNull(if n < |s| then s[n + 1..] else []);
    }
  }

  lemma {:induction false} ParsedIsProper(config: Bytes)
    requires ReadConfig(config).Some?
    ensures ProperConfig(ReadConfig(config).value)
  {
    hide Lines, ReadLines;
    var s := if HasMark(config) then config[3..] else config;
    LinesHaveNoNull(s);
    LinesKeepProper(Nothing, Lines(s));
  }

  // ----- paths of nodes -----

  /** A proper path and what is above it. */
  lemma {:induction false} UpIsProper(p: Bytes)
    requires ProperPath(p) && p != []
    ensures ProperPath(Up(p)) && IsSplit(p, Split(p)) && HasSlash(p)
    ensures p == Up(p) + [SLASH] + Split(p).tail
  {
    SplitIsSplit(p);
    assert HasSlash(p);
    var up := Up(p);
    if up != [] { assert up[0] == p[0]; }
  }

  lemma {:induction false} LineageIsProper(q: Bytes, p: Bytes)
    requires ProperPath(q) && p in Lineage(q)
    ensures ProperPath(p) && p <= q
    decreases |q|
  {
    if p != q {
      UpIsProper(q);
      LineageIsProper(Up(q), p);
    }
  }

  lemma {:induction false} NodesAreProper(nodes: Arena, c: Config, p: Bytes)
    requires ProperConfig(c) && Parsed(nodes, c.explicit) && p in nodes
    ensures ProperPath(p) && !nodes[p].policy.Unknown?
  {
    hide Lineage, ProperPath;
    if p == [] {
      assert ProperPath([]) by { RootIsProper(); }
    } else {
      var q :| q in c.explicit && p in Lineage(q);
      LineageIsProper(q, p);
    }
    NearestIsKnown(c.explicit, p);
  }

  lemma {:induction false} RootIsProper()
    ensures ProperPath([])
  {
  }

  lemma {:induction false} NearestIsKnown(e: Explicit, p: Bytes)
    requires forall q :: q in e ==> !e[q].Unknown?
    ensures !Nearest(e, p).Unknown?
    decreases |p|
  {
    if p !in e && p != [] { NearestIsKnown(e, Up(p)); }
  }

  /** A literal element is a valid name: no slash, no dot element, no null byte. */
  lemma {:induction false} LiteralIsValid(p: Bytes)
    requires ProperPath(p) && p != [] && PatternOf(p).Literal?
    ensures ValidName(PatternOf(p).name)
  {
    UpIsProper(p);
    var tail := Split(p).tail;
    assert p[|p| - 1] != SLASH;
    assert forall i :: 0 <= i < |tail| ==> tail[i] == p[|Up(p)| + 1 + i];
  }

  lemma {:induction false} SiblingsDiffer(p: Bytes, q: Bytes)
    requires ProperPath(p) && ProperPath(q) && p != [] && q != [] && p != q && Up(p) == Up(q)
    requires PatternOf(p).Literal? && PatternOf(q).Literal?
    ensures PatternOf(p) != PatternOf(q)
  {
    hide PathContainsDotElements;
    UpIsProper(p);
    UpIsProper(q);
  }

  // ----- the tree is what the search expects -----

  lemma {:induction false} SubtreeIsProper(nodes: Arena, c: Config, p: Bytes)
    requires ProperConfig(c) && Parsed(nodes, c.explicit) && p in nodes
    ensures ProperTree(TreeOf(nodes, p)) && LoadableTree(TreeOf(nodes, p))
    decreases Longest(nodes.Keys) - |p|
  {
    hide Right, ExactNodes, ProperPath, PatternOf, Longest, Lists;
    var tree, subs := TreeOf(nodes, p), nodes[p].subnodes;
    NodesAreProper(nodes, c, p);
    forall i | 0 <= i < |subs|
      ensures ProperTree(tree.subnodes[i]) && LoadableTree(tree.subnodes[i])
      ensures tree.subnodes[i].pattern == PatternOf(subs[i])
      ensures PatternOf(subs[i]).Literal? ==> ValidName(PatternOf(subs[i]).name)
    {
      Subnode(nodes, p, i);
      LongestBounds(nodes, p, subs[i]);
      SubtreeIsProper(nodes, c, subs[i]);
      NodesAreProper(nodes, c, subs[i]);
      if PatternOf(subs[i]).Literal? { LiteralIsValid(subs[i]); }
    }
    forall i, j | 0 <= i < j < |subs| && PatternOf(subs[i]).Literal? && PatternOf(subs[j]).Literal?
      ensures PatternOf(subs[i]) != PatternOf(subs[j])
    {
      Subnode(nodes, p, i);
      Subnode(nodes, p, j);
      NodesAreProper(nodes, c, subs[i]);
      NodesAreProper(nodes, c, subs[j]);
      SiblingsDiffer(subs[i], subs[j]);
    }
    assert LoadableNodes(tree.subnodes);
    assert ProperNodes(tree.subnodes);
  }

  lemma {:induction false} LongestBounds(nodes: Arena, p: Bytes, q: Bytes)
    requires p in nodes && q in nodes && |p| < |q|
    ensures 0 <= Longest(nodes.Keys) - |q| < Longest(nodes.Keys) - |p|
  {
  }

  /** Whatever config parses, its tree is one for which a search follows the config, and whose names
      can be written. */
  lemma {:induction false} ParsedTreeIsProper(config: Bytes, nodes: Arena)
    requires ReadConfig(config).Some? && Parsed(nodes, ReadConfig(config).value.explicit)
    ensures ProperTree(TreeOf(nodes, [])) && LoadableTree(TreeOf(nodes, []))
  {
    ParsedIsProper(config);
    SubtreeIsProper(nodes, ReadConfig(config).value, []);
  }

  // ----- when the root directory is not listed -----

  /** The config neither gives the root directory a policy, nor searches it by regular expression. */
  predicate SparesRoot(e: Explicit) {
    forall q :: q in e ==> q != [] && (|q| >= 2 ==> q[1] != SLASH)
  }

  /** The topmost path above a path. */
  lemma {:induction false} TopOf(q: Bytes) returns (p: Bytes)
    requires ProperPath(q) && q != []
    ensures p in Lineage(q) && p != [] && Up(p) == []
    decreases |q|
  {
    UpIsProper(q);
    if Up(q) == [] { p := q; } else { p := TopOf(Up(q)); }
  }

  lemma {:induction false} TopPattern(p: Bytes)
    requires ProperPath(p) && p != [] && Up(p) == []
    ensures |p| >= 2 && (PatternOf(p).Regex? <==> p[1] == SLASH)
  {
    hide PathContainsDotElements;
    UpIsProper(p);
    var tail := Split(p).tail;
    assert p == [SLASH] + tail;
    assert p[|p| - 1] != SLASH;
    assert tail[0] == p[1];
  }

  lemma {:induction false} RegexOnTop(nodes: Arena, c: Config, i: nat)
    requires ProperConfig(c) && Parsed(nodes, c.explicit) && i < |nodes[[]].subnodes|
    ensures TreeOf(nodes, []).subnodes[i].pattern == PatternOf(nodes[[]].subnodes[i])
    ensures SparesRoot(c.explicit) ==> PatternOf(nodes[[]].subnodes[i]).Literal?
  {
    hide PatternOf, ProperPath, Lineage, Right, Lists;
    Subnode(nodes, [], i);
    var p := nodes[[]].subnodes[i];
    NodesAreProper(nodes, c, p);
    TopPattern(p);
    var q :| q in c.explicit && p in Lineage(q);
    LineageIsProper(q, p);
  }

  lemma {:induction false} RootPolicy(nodes: Arena, c: Config)
    requires ProperConfig(c) && Parsed(nodes, c.explicit)
    ensures TreeOf(nodes, []).policy == NoPolicy <==> [] !in c.explicit
    ensures |TreeOf(nodes, []).subnodes| == |nodes[[]].subnodes|
  {
    hide PatternOf, ProperPath, Lineage;
    assert TreeOf(nodes, []).policy == Nearest(c.explicit, []);
  }

  /** A path that is searched by regular expression on top makes the root directory one to be listed. */
  lemma {:induction false} RootIsListed(nodes: Arena, c: Config, q: Bytes)
    requires ProperConfig(c) && Parsed(nodes, c.explicit) && q in c.explicit && |q| >= 2 && q[1] == SLASH
    ensures exists i :: 0 <= i < |TreeOf(nodes, []).subnodes| && TreeOf(nodes, []).subnodes[i].pattern.Regex?
  {
    hide PatternOf, ProperPath, Lineage, TreeOf;
    assert ProperPath(q);
    var p := TopOf(q);
    LineageIsProper(q, p);
    assert p in nodes && p in nodes[[]].subnodes;
    var i :| 0 <= i < |nodes[[]].subnodes| && nodes[[]].subnodes[i] == p;
    RootPolicy(nodes, c);
    RegexOnTop(nodes, c, i);
    TopPattern(p);
    assert TreeOf(nodes, []).subnodes[i].pattern.Regex?;
  }

  /** The search does not list the root directory exactly if the config spares it; with
      SearchRules.RootListingIsNotLoadable, these are the configs whose backups can be loaded again. */
  lemma {:induction false} RootIsSpared(nodes: Arena, c: Config)
    requires ProperConfig(c) && Parsed(nodes, c.explicit)
    ensures IsDirect(Some(TreeOf(nodes, []))) <==> SparesRoot(c.explicit)
  {
    hide PatternOf, ProperPath, Lineage, Right, ProperConfig, Nearest, TreeOf;
    var e, root := c.explicit, TreeOf(nodes, []);
    RootPolicy(nodes, c);
    if SparesRoot(e) {
      forall i | 0 <= i < |root.subnodes| ensures root.subnodes[i].pattern.Literal? { RegexOnTop(nodes, c, i); }
    } else {
      var q :| q in e && (q == [] || (|q| >= 2 && q[1] == SLASH));
      if q != [] { RootIsListed(nodes, c, q); }
    }
  }
}
