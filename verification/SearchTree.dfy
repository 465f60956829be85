/** Parsing the config into a search tree (src/search-tree.c). Nodes live in a table by their path, as
    in the parser's own table; the root node has the empty path. */
module SearchTree {
  import opened Data
  import opened Str
  import opened Metadata

  /** A search node under construction. */
  datatype Rec = Rec(policy: Policy, inherited: bool, subnodes: seq<Bytes>)

  type Arena = map<Bytes, Rec>

  function Up(path: Bytes): (r: Bytes)
    ensures path != [] ==> |r| < |path|
  {
    UpIsShorter(path);
    Split(path).head
  }

  lemma {:induction false} UpIsShorter(path: Bytes)
    ensures path != [] ==> |Split(path).head| < |path|
  {
    SplitIsSplit(path);
  }

  // ----- what the config means -----

  /** The policies that the config defines explicitly. */
  type Explicit = map<Bytes, Policy>

  /** The policy of the nearest explicitly configured path, upwards from the path itself. */
  function Nearest(e: Explicit, path: Bytes): Policy
    decreases |path|
  {
    if path in e then e[path] else if path == [] then NoPolicy else Nearest(e, Up(path))
  }

  /** A path and everything above it. */
  function Lineage(path: Bytes): set<Bytes>
    decreases |path|
  {
    {path} + if path == [] then {} else Lineage(Up(path))
  }

  predicate IsExplicit(r: Rec) { r.policy != NoPolicy && !r.inherited }

  /** The nodes form a tree by their paths. */
  ghost predicate Linked(nodes: Arena) {
    && [] in nodes
    && (forall p :: p in nodes && p != [] ==> Up(p) in nodes)
    && (forall p :: p in nodes ==> Lists(nodes.Keys, nodes[p].subnodes, p))
  }

  /** The subnodes of a path are the nodes directly below it, each once. */
  ghost predicate Lists(paths: set<Bytes>, subnodes: seq<Bytes>, p: Bytes) {
    && (forall q :: q in subnodes <==> q in paths && q != [] && Up(q) == p)
    && (forall i, j :: 0 <= i < j < |subnodes| ==> subnodes[i] != subnodes[j])
  }

  /** Every node has the policy of its nearest explicit ancestor or self, and knows whether that is its
      own. */
  ghost predicate Right(nodes: Arena, e: Explicit) {
    && e.Keys <= nodes.Keys
    && (forall p :: p in e ==> e[p] != NoPolicy)
    && (forall p :: p in nodes ==> RightAt(nodes[p], e, p))
  }

  predicate RightAt(r: Rec, e: Explicit, p: Bytes) {
    r.policy == Nearest(e, p) && (r.inherited <==> p !in e && r.policy != NoPolicy)
  }

  lemma {:induction false} ExplicitMeans(nodes: Arena, e: Explicit, p: Bytes)
    requires Right(nodes, e) && p in nodes
    ensures IsExplicit(nodes[p]) <==> p in e
  {
  }

  // ----- inheriting -----

  /** Whether a node inherits from another one: nothing explicit on the way down to it. */
  predicate Free(nodes: Arena, q: Bytes, r: Bytes)
    decreases |q|
  {
    q in nodes && q != [] && !IsExplicit(nodes[q]) && (Up(q) == r || Free(nodes, Up(q), r))
  }

  function Inheriting(r: Rec, policy: Policy): Rec { r.(policy := policy, inherited := true) }

  /** inheritPolicyToSubnodes() */
  function Inherited(nodes: Arena, r: Bytes): Arena
    requires r in nodes
  {
    map q | q in nodes :: if Free(nodes, q, r) then Inheriting(nodes[q], nodes[r].policy) else nodes[q]
  }

  /** The child of r on the way down to a node. */
  function Top(q: Bytes, r: Bytes): Bytes
    decreases |q|
  {
    if q == [] || Up(q) == r then q else Top(Up(q), r)
  }

  /** The state after some of the subnodes have inherited. */
  ghost function Partly(nodes: Arena, r: Bytes, done: seq<Bytes>): Arena
    requires r in nodes
  {
    map q | q in nodes :: if Free(nodes, q, r) && Top(q, r) in done then Inheriting(nodes[q], nodes[r].policy) else nodes[q]
  }

  lemma {:induction false} FreeTop(nodes: Arena, q: Bytes, r: Bytes)
    requires Linked(nodes) && Free(nodes, q, r)
    ensures Top(q, r) in nodes && Top(q, r) != [] && Up(Top(q, r)) == r && !IsExplicit(nodes[Top(q, r)])
    ensures |q| >= |Top(q, r)| > |r|
    decreases |q|
  {
    if Up(q) != r { FreeTop(nodes, Up(q), r); }
  }

  lemma {:induction false} PartlyAll(nodes: Arena, r: Bytes)
    requires Linked(nodes) && r in nodes
    ensures Partly(nodes, r, nodes[r].subnodes) == Inherited(nodes, r)
    ensures Partly(nodes, r, []) == nodes
  {
    hide Free, Top, Linked;
    forall q | q in nodes ensures Free(nodes, q, r) ==> Top(q, r) in nodes[r].subnodes {
      if Free(nodes, q, r) { TopIsSubnode(nodes, q, r); }
    }
  }

  lemma {:induction false} TopIsSubnode(nodes: Arena, q: Bytes, r: Bytes)
    requires Linked(nodes) && r in nodes && Free(nodes, q, r)
    ensures Top(q, r) in nodes[r].subnodes
  {
    FreeTop(nodes, q, r);
    assert Lists(nodes.Keys, nodes[r].subnodes, r);
    hide Up, Free, Top;
  }

  /** What is free below a subnode after it inherited is what was free below the parent through it. */
  lemma {:induction false} FreeBelow(nodes: Arena, mid: Arena, q: Bytes, r: Bytes, c: Bytes)
    requires Linked(nodes) && r in nodes && c in nodes && c != [] && Up(c) == r && !IsExplicit(nodes[c])
    requires mid.Keys == nodes.Keys && !IsExplicit(mid[c])
    requires forall p :: p in nodes && Top(p, r) == c && p != c ==> IsExplicit(mid[p]) == IsExplicit(nodes[p])
    ensures Free(mid, q, c) <==> Free(nodes, q, r) && Top(q, r) == c && q != c
    decreases |q|
  {
    if q in nodes && q != [] {
      if Up(q) == c {
        assert Top(q, r) == c && q != c;
        assert Free(nodes, c, r);
      } else {
        FreeBelow(nodes, mid, Up(q), r, c);
        if Up(q) != r {
          assert Top(q, r) == Top(Up(q), r);
        }
        if Free(mid, Up(q), c) { FreeTop(nodes, Up(q), r); }
      }
    }
  }

  /** The state in which a subnode is about to hand its policy on. */
  ghost function Own(nodes: Arena, r: Bytes, done: seq<Bytes>, c: Bytes): Arena
    requires r in nodes && c in nodes
  {
    var mid := Partly(nodes, r, done);
    mid[c := Inheriting(mid[c], nodes[r].policy)]
  }

  lemma {:induction false} OwnFree(nodes: Arena, r: Bytes, done: seq<Bytes>, c: Bytes, q: Bytes)
    requires Linked(nodes) && r in nodes && c in nodes && c != [] && Up(c) == r && c !in done && !IsExplicit(nodes[c])
    ensures Free(Own(nodes, r, done, c), q, c) <==> Free(nodes, q, r) && Top(q, r) == c && q != c
    ensures Own(nodes, r, done, c)[c] == Inheriting(nodes[c], nodes[r].policy)
  {
    hide Free;
    assert Top(c, r) == c;
    var own := Own(nodes, r, done, c);
    assert own.Keys == nodes.Keys;
    FreeBelow(nodes, own, q, r, c);
  }

  lemma {:induction false} OwnAt(nodes: Arena, r: Bytes, done: seq<Bytes>, c: Bytes, q: Bytes)
    requires Linked(nodes) && r in nodes && c in nodes && c != [] && Up(c) == r && c !in done && !IsExplicit(nodes[c])
    requires q in nodes
    ensures Inherited(Own(nodes, r, done, c), c)[q] == Partly(nodes, r, done + [c])[q]
  {
    OwnFree(nodes, r, done, c, q);
    assert Free(nodes, c, r) && Top(c, r) == c;
    hide Free, Top;
  }

  lemma {:induction false} SkippedAt(nodes: Arena, r: Bytes, done: seq<Bytes>, c: Bytes, q: Bytes)
    requires Linked(nodes) && r in nodes && c in nodes && IsExplicit(nodes[c]) && q in nodes
    ensures Partly(nodes, r, done + [c])[q] == Partly(nodes, r, done)[q]
  {
    hide Top;
    if Free(nodes, q, r) { FreeTop(nodes, q, r); }
    hide Free;
  }

  /** One more subnode: an explicit one is skipped, any other inherits and hands on. */
  lemma {:induction false} OneMoreSubnode(nodes: Arena, r: Bytes, done: seq<Bytes>, c: Bytes)
    requires Linked(nodes) && r in nodes && c in nodes && c != [] && Up(c) == r && c !in done
    ensures Partly(nodes, r, done + [c]) == if IsExplicit(nodes[c]) then Partly(nodes, r, done) else Inherited(Own(nodes, r, done, c), c)
  {
    hide Free, Top;
    forall q | q in nodes
      ensures Partly(nodes, r, done + [c])[q] == if IsExplicit(nodes[c]) then Partly(nodes, r, done)[q] else Inherited(Own(nodes, r, done, c), c)[q]
    {
      if IsExplicit(nodes[c]) { SkippedAt(nodes, r, done, c, q); } else { OwnAt(nodes, r, done, c, q); }
    }
  }

  class Parser {
    var nodes: Arena
    var section: Policy
    var ignore: seq<Bytes>
    var summarize: seq<Bytes>
    /** The paths that got a policy of their own so far. */
    ghost var explicit: Explicit

    ghost predicate Valid() reads this { Parsed(nodes, explicit) }

    ghost function Settings(): Config reads this { Config(section, explicit, ignore, summarize) }

    /** The tree with nothing but its root. */
    constructor ()
      ensures Valid() && Settings() == Nothing
    {
      nodes := map[[] := Rec(NoPolicy, false, [])];
      section, ignore, summarize, explicit := NoPolicy, [], [], map[];
      new;
      NothingParsed();
    }

    /** inheritPolicyToSubnodes() */
    method InheritToSubnodes(r: Bytes, ghost bound: nat)
      requires Linked(nodes) && r in nodes && forall p :: p in nodes ==> |p| <= bound
      modifies this`nodes
      ensures nodes == Inherited(old(nodes), r)
      decreases bound - |r|
    {
      hide Free, Top, Nearest, Up, Linked, Inherited, Partly;
      ghost var start := nodes;
      PartlyAll(start, r);
      var subnodes := nodes[r].subnodes;
      var i := 0;
      while i < |subnodes|
        invariant 0 <= i <= |subnodes|
        invariant nodes == Partly(start, r, subnodes[..i])
      {
        var c := subnodes[i];
        Subnode(start, r, i);
        OneMoreSubnode(start, r, subnodes[..i], c);
        UntouchedSubnode(start, r, subnodes[..i], c);
        assert subnodes[..i] + [c] == subnodes[..i + 1];
        if nodes[c].policy == NoPolicy || nodes[c].inherited {
          LinkedPartly(start, r, subnodes[..i], c);
          nodes := nodes[c := Inheriting(nodes[c], nodes[r].policy)];
          assert nodes == Own(start, r, subnodes[..i], c);
          InheritToSubnodes(c, bound);
        }
        i := i + 1;
      }
      assert subnodes[..i] == subnodes;
    }

    /** newNode(): creates the parents that are missing, and prepends the node to its parent's list. */
    method NewNode(path: Bytes, ghost e: Explicit)
      requires Linked(nodes) && Right(nodes, e) && path !in nodes
      modifies this`nodes
      ensures Linked(nodes) && Right(nodes, e) && nodes.Keys == old(nodes).Keys + Lineage(path)
      decreases |path|
    {
      hide Split, Nearest, Linked, Right;
      NewNodeNeeds(nodes, path);
      var parent := Up(path);
      if parent !in nodes { NewNode(parent, e); } else { LineageKnown(nodes, parent); }
      ghost var mid := nodes;
      assert path !in mid by { LineageIsShorter(parent, path); }
      var r := nodes[parent];
      nodes := nodes[path := Rec(r.policy, r.policy != NoPolicy, [])];
      nodes := nodes[parent := r.(subnodes := [path] + r.subnodes)];
      NewNodeIsLinked(mid, nodes, path);
      NewNodeIsRight(mid, nodes, path, e);
      assert nodes.Keys == mid.Keys + {path};
    }

    /** What the main loop does with a path. It is an error if the path was already defined. */
    method Define(path: Bytes, policy: Policy, ghost e: Explicit) returns (ok: bool)
      requires Linked(nodes) && Right(nodes, e) && policy != NoPolicy
      modifies this`nodes
      ensures ok <==> path !in e
      ensures ok ==> Linked(nodes) && Right(nodes, e[path := policy]) && nodes.Keys == old(nodes).Keys + Lineage(path)
    {
      hide Split, Nearest, Free, Inherited;
      if path in nodes {
        ExplicitMeans(nodes, e, path);
        if nodes[path].policy != NoPolicy && !nodes[path].inherited { return false; }
        LineageKnown(nodes, path);
      } else {
        NewNode(path, e);
      }
      LineageHasSelf(path);
      ghost var mid := nodes;
      nodes := nodes[path := nodes[path].(policy := policy, inherited := false)];
      DefinedIsLinked(mid, path, policy);
      InheritToSubnodes(path, Longest(nodes.Keys));
      InheritedIsLinked(mid[path := mid[path].(policy := policy, inherited := false)], path);
      DefinedIsRight(mid, path, policy, e);
      ok := true;
    }

    /** One iteration of the line loop. */
    method ParseLine(line: Bytes) returns (ok: bool)
      requires Valid()
      modifies this
      ensures ok <==> ReadLine(old(Settings()), line).Some?
      ensures ok ==> Valid() && Settings() == ReadLine(old(Settings()), line).value
    {
      hide Lineage, Nearest, Up, PathContainsDotElements, Section, StripSlashes, Linked, Right, ExactNodes;
      ok := true;
      if Comment(line) {
      } else if Section(line).Some? {
        section := Section(line).value;
      } else if line[0] == 91 && line[|line| - 1] == 93 {
        ok := false;
      } else if section == NoPolicy {
        ok := false;
      } else if section == Ignore {
        ignore := [line] + ignore;
      } else if section == Summarize {
        summarize := [line] + summarize;
      } else if line[0] == SLASH {
        if PathContainsDotElements(line) { return false; }
        var path := StripTrailingSlashes(line);
        ghost var before := nodes;
        ok := Define(path, section, explicit);
        if ok {
          ExactAfterDefine(before, nodes, explicit, path, section);
          explicit := explicit[path := section];
        }
      } else {
        ok := false;
      }
    }
  }

  /** getLine() */
  method GetLine(config: Bytes, start: nat) returns (line: Bytes)
    requires start < |config|
    ensures line == config[start..start + LineEnd(config[start..])]
  {
    var end := start;
    while end < |config| && config[end] != NEWLINE
      invariant start <= end <= |config|
      invariant LineEnd(config[start..]) == end - start + LineEnd(config[end..])
    {
      assert config[end..][0] == config[end] && config[end..][1..] == config[end + 1..];
      end := end + 1;
    }
    assert end < |config| ==> config[end..][0] == config[end];
    line := config[start..end];
  }

  lemma {:induction false} Subnode(nodes: Arena, r: Bytes, i: nat)
    requires Linked(nodes) && r in nodes && i < |nodes[r].subnodes|
    ensures var c := nodes[r].subnodes[i];
      c in nodes && c != [] && Up(c) == r && |r| < |c| && c !in nodes[r].subnodes[..i]
  {
    assert nodes[r].subnodes[i] in nodes[r].subnodes;
  }

  /** A subnode whose turn has not come, and the parent, are still as they were. */
  lemma {:induction false} UntouchedSubnode(nodes: Arena, r: Bytes, done: seq<Bytes>, c: Bytes)
    requires r in nodes && c in nodes && c != [] && Up(c) == r && c !in done
    ensures Partly(nodes, r, done).Keys == nodes.Keys
    ensures Partly(nodes, r, done)[c] == nodes[c] && Partly(nodes, r, done)[r] == nodes[r]
  {
    assert Top(c, r) == c;
    NotFreeFromItself(nodes, r);
  }

  lemma {:induction false} FreeIsLonger(nodes: Arena, q: Bytes, r: Bytes)
    requires Free(nodes, q, r)
    ensures |q| > |r|
    decreases |q|
  {
    if Up(q) != r { FreeIsLonger(nodes, Up(q), r); }
  }

  lemma {:induction false} NotFreeFromItself(nodes: Arena, r: Bytes)
    ensures !Free(nodes, r, r)
  {
    if Free(nodes, r, r) { FreeIsLonger(nodes, r, r); }
  }

  /** The tree only depends on paths and lists of subnodes. */
  lemma {:induction false} SameShape(a: Arena, b: Arena)
    requires Linked(a) && b.Keys == a.Keys && forall p :: p in a ==> b[p].subnodes == a[p].subnodes
    ensures Linked(b)
  {
    hide Up, Lists;
  }

  lemma {:induction false} LinkedPartly(nodes: Arena, r: Bytes, done: seq<Bytes>, c: Bytes)
    requires Linked(nodes) && r in nodes && c in nodes
    ensures var mid := Partly(nodes, r, done);
      Linked(mid) && Linked(mid[c := Inheriting(mid[c], nodes[r].policy)])
  {
    hide Free, Top, Linked;
    var mid := Partly(nodes, r, done);
    SameShape(nodes, mid);
    SameShape(nodes, mid[c := Inheriting(mid[c], nodes[r].policy)]);
  }

  // ----- new nodes and definitions -----

  ghost function Longest(s: set<Bytes>): (n: nat)
    ensures forall p :: p in s ==> |p| <= n
  {
    if s == {} then 0
    else
      var p :| p in s;
      var n := Longest(s - {p});
      if |p| > n then |p| else n
  }

  lemma {:induction false} LineageHasSelf(path: Bytes)
    ensures path in Lineage(path)
  {
  }

  lemma {:induction false} LineageKnown(nodes: Arena, path: Bytes)
    requires Linked(nodes) && path in nodes
    ensures nodes.Keys + Lineage(path) == nodes.Keys
    decreases |path|
  {
    if path != [] { LineageKnown(nodes, Up(path)); }
  }

  /** Everything above a shorter path is shorter, too. */
  lemma {:induction false} LineageIsShorter(path: Bytes, other: Bytes)
    requires |path| < |other|
    ensures other !in Lineage(path)
    decreases |path|
  {
    if path != [] { LineageIsShorter(Up(path), other); }
  }

  lemma {:induction false} NewNodeNeeds(nodes: Arena, path: Bytes)
    requires Linked(nodes) && path !in nodes
    ensures path != [] && |Up(path)| < |path|
  {
  }

  lemma {:induction false} NewNodeIsLinked(mid: Arena, nodes: Arena, path: Bytes)
    requires Linked(mid) && path !in mid && Up(path) in mid
    requires var r := mid[Up(path)];
      nodes == mid[path := Rec(r.policy, r.policy != NoPolicy, [])][Up(path) := r.(subnodes := [path] + r.subnodes)]
    ensures Linked(nodes)
  {
    var parent := Up(path);
    assert path != parent && path != [];
    assert nodes.Keys == mid.Keys + {path};
    hide Up, Lists;
    forall p | p in nodes ensures Lists(nodes.Keys, nodes[p].subnodes, p) {
      if p == path {
        NothingBelowNew(mid, path);
      } else if p == parent {
        assert Lists(mid.Keys, mid[p].subnodes, p);
        Prepended(mid.Keys, mid[p].subnodes, path, p);
      } else {
        assert Lists(mid.Keys, mid[p].subnodes, p);
        NotAChild(mid.Keys, mid[p].subnodes, path, p);
      }
    }
  }

  lemma {:induction false} NothingBelowNew(mid: Arena, path: Bytes)
    requires Linked(mid) && path !in mid && path != []
    ensures Lists(mid.Keys + {path}, [], path)
  {
    assert |Up(path)| < |path|;
    hide Up;
  }

  lemma {:induction false} Prepended(paths: set<Bytes>, subnodes: seq<Bytes>, path: Bytes, p: Bytes)
    requires Lists(paths, subnodes, p) && path !in paths && path != [] && Up(path) == p
    ensures Lists(paths + {path}, [path] + subnodes, p)
  {
    hide Up;
    assert path !in subnodes;
    var s := [path] + subnodes;
    assert forall i :: 1 <= i < |s| ==> s[i] == subnodes[i - 1];
    assert forall q :: q in s <==> q == path || q in subnodes;
  }

  lemma {:induction false} NotAChild(paths: set<Bytes>, subnodes: seq<Bytes>, path: Bytes, p: Bytes)
    requires Lists(paths, subnodes, p) && path != [] && Up(path) != p
    ensures Lists(paths + {path}, subnodes, p)
  {
    hide Up;
  }

  lemma {:induction false} NewNodeIsRight(mid: Arena, nodes: Arena, path: Bytes, e: Explicit)
    requires Right(mid, e) && path !in mid && path != [] && Up(path) in mid
    requires var r := mid[Up(path)];
      nodes == mid[path := Rec(r.policy, r.policy != NoPolicy, [])][Up(path) := r.(subnodes := [path] + r.subnodes)]
    ensures Right(nodes, e)
  {
    hide Up;
    assert Nearest(e, path) == Nearest(e, Up(path));
    hide Nearest;
  }

  lemma {:induction false} DefinedIsLinked(nodes: Arena, path: Bytes, policy: Policy)
    requires Linked(nodes) && path in nodes
    ensures Linked(nodes[path := nodes[path].(policy := policy, inherited := false)])
  {
    hide Linked;
    SameShape(nodes, nodes[path := nodes[path].(policy := policy, inherited := false)]);
  }

  lemma {:induction false} InheritedIsLinked(nodes: Arena, r: Bytes)
    requires Linked(nodes) && r in nodes
    ensures Linked(Inherited(nodes, r)) && Inherited(nodes, r).Keys == nodes.Keys
  {
    hide Linked, Free;
    SameShape(nodes, Inherited(nodes, r));
  }

  /** After a definition, a path has the new policy exactly if it is free to inherit it. */
  lemma {:induction false} NearestChanges(nodes: Arena, e: Explicit, path: Bytes, policy: Policy, q: Bytes)
    requires Linked(nodes) && Right(nodes, e) && path in nodes && path !in e && q in nodes && policy != NoPolicy
    ensures var own := nodes[path := nodes[path].(policy := policy, inherited := false)];
      && (q == path || Free(own, q, path) ==> Nearest(e[path := policy], q) == policy)
      && (q != path && !Free(own, q, path) ==> Nearest(e[path := policy], q) == Nearest(e, q))
    decreases |q|
  {
    hide Split, Lists, RightAt;
    var own := nodes[path := nodes[path].(policy := policy, inherited := false)];
    ExplicitMeans(nodes, e, q);
    NotFreeFromItself(own, path);
    if q != path && q !in e && q != [] { NearestChanges(nodes, e, path, policy, Up(q)); }
  }

  lemma {:induction false} DefinedAt(nodes: Arena, path: Bytes, policy: Policy, e: Explicit, q: Bytes)
    requires Linked(nodes) && Right(nodes, e) && path in nodes && path !in e && policy != NoPolicy && q in nodes
    ensures RightAt(Inherited(nodes[path := nodes[path].(policy := policy, inherited := false)], path)[q], e[path := policy], q)
  {
    var own := nodes[path := nodes[path].(policy := policy, inherited := false)];
    NearestChanges(nodes, e, path, policy, q);
    NotFreeFromItself(own, path);
    assert RightAt(nodes[q], e, q);
    ExplicitMeans(nodes, e, q);
    assert Free(own, q, path) ==> !IsExplicit(own[q]);
    assert q in e ==> e[q] != NoPolicy;
    hide Free, Nearest, Linked, Right;
  }

  lemma {:induction false} DefinedIsRight(nodes: Arena, path: Bytes, policy: Policy, e: Explicit)
    requires Linked(nodes) && Right(nodes, e) && path in nodes && path !in e && policy != NoPolicy
    ensures Right(Inherited(nodes[path := nodes[path].(policy := policy, inherited := false)], path), e[path := policy])
  {
    hide Free, Nearest, Linked, RightAt;
    var own := nodes[path := nodes[path].(policy := policy, inherited := false)];
    forall q | q in nodes ensures RightAt(Inherited(own, path)[q], e[path := policy], q) {
      DefinedAt(nodes, path, policy, e, q);
    }
    assert Inherited(own, path).Keys == nodes.Keys;
  }

  // ----- lines -----

  const NEWLINE: Byte := 10

  function LineEnd(s: Bytes): (n: nat)
    ensures n <= |s|
    ensures forall i :: 0 <= i < n ==> s[i] != NEWLINE
    ensures n < |s| ==> s[n] == NEWLINE
  {
    if s == [] || s[0] == NEWLINE then 0 else 1 + LineEnd(s[1..])
  }

  /** The lines of a config; a final newline does not start another line. */
  function Lines(s: Bytes): seq<Bytes>
    decreases |s|
  {
    if s == [] then []
    else
      var n := LineEnd(s);
      [s[..n]] + Lines(if n < |s| then s[n + 1..] else [])
  }

  function Unlines(lines: seq<Bytes>): Bytes {
    if lines == [] then [] else if |lines| == 1 then lines[0] else lines[0] + [NEWLINE] + Unlines(lines[1..])
  }

  /** The lines are the whole config, cut at its newlines. */
  lemma {:induction false} LinesAreComplete(s: Bytes)
    ensures IsCut(s, Unlines(Lines(s)))
    ensures forall i :: 0 <= i < |Lines(s)| ==> NEWLINE !in Lines(s)[i]
    ensures Lines(s) == [] <==> s == []
    decreases |s|
  {
    hide LineEnd, Unlines, IsCut;
    if s == [] {
      NothingIsCut();
    } else {
      var n := LineEnd(s);
      var line, rest := s[..n], if n < |s| then s[n + 1..] else [];
      LinesAreComplete(rest);
      FirstLine(line, Lines(rest));
      assert Lines(s) == [line] + Lines(rest);
      CutOnce(s, n, Unlines(Lines(rest)));
    }
  }

  /** The whole, up to a newline at the end. */
  predicate IsCut(s: Bytes, u: Bytes) { s == u || s == u + [NEWLINE] }

  lemma {:induction false} NothingIsCut()
    ensures Unlines([]) == [] && IsCut([], [])
  {
  }

  lemma {:induction false} CutOnce(s: Bytes, n: nat, u: Bytes)
    requires n <= |s| && s != [] && (n < |s| ==> s[n] == NEWLINE)
    requires IsCut(if n < |s| then s[n + 1..] else [], u)
    ensures var rest := if n < |s| then s[n + 1..] else [];
      IsCut(s, if rest == [] then s[..n] else s[..n] + [NEWLINE] + u)
  {
    if n < |s| {
      var rest := s[n + 1..];
      assert s == s[..n] + [NEWLINE] + rest;
      assert s[..n] + [NEWLINE] + (u + [NEWLINE]) == s[..n] + [NEWLINE] + u + [NEWLINE];
    } else {
      assert s[..n] == s;
    }
  }

  lemma {:induction false} FirstLine(line: Bytes, rest: seq<Bytes>)
    ensures Unlines([line] + rest) == if rest == [] then line else line + [NEWLINE] + Unlines(rest)
  {
    assert ([line] + rest)[1..] == rest;
  }

  predicate WhitespaceOnly(line: Bytes) { forall i :: 0 <= i < |line| ==> line[i] == 32 || line[i] == 9 }

  const COPY: Bytes := [91, 99, 111, 112, 121, 93]
  const MIRROR: Bytes := [91, 109, 105, 114, 114, 111, 114, 93]
  const TRACK: Bytes := [91, 116, 114, 97, 99, 107, 93]
  const IGNORE: Bytes := [91, 105, 103, 110, 111, 114, 101, 93]
  const SUMMARIZE: Bytes := [91, 115, 117, 109, 109, 97, 114, 105, 122, 101, 93]

  /** The section a token starts. */
  function Section(line: Bytes): Option<Policy> {
    if line == COPY then Some(Copy)
    else if line == MIRROR then Some(Mirror)
    else if line == TRACK then Some(Track)
    else if line == IGNORE then Some(Ignore)
    else if line == SUMMARIZE then Some(Summarize)
    else None
  }

  // ----- what a config says -----

  /** The section the parser is in, and what was configured so far. */
  datatype Config = Config(section: Policy, explicit: Explicit, ignore: seq<Bytes>, summarize: seq<Bytes>)

  const Nothing: Config := Config(NoPolicy, map[], [], [])

  predicate Comment(line: Bytes) { WhitespaceOnly(line) || line[0] == 35 }

  /** What one line adds. None is an error. */
  function ReadLine(c: Config, line: Bytes): Option<Config> {
    if Comment(line) then Some(c)
    else if Section(line).Some? then Some(c.(section := Section(line).value))
    else if line[0] == 91 && line[|line| - 1] == 93 then None
    else if c.section.NoPolicy? then None
    else if c.section.Ignore? then Some(c.(ignore := [line] + c.ignore))
    else if c.section.Summarize? then Some(c.(summarize := [line] + c.summarize))
    else if line[0] == SLASH then
      var path := StripSlashes(line);
      if PathContainsDotElements(line) || path in c.explicit then None else Some(c.(explicit := c.explicit[path := c.section]))
    else None
  }

  function ReadLines(c: Config, lines: seq<Bytes>): Option<Config>
    decreases |lines|
  {
    if lines == [] then Some(c)
    else
      var d :- ReadLine(c, lines[0]);
      ReadLines(d, lines[1..])
  }

  predicate HasMark(config: Bytes) { |config| >= 3 && config[..3] == [0xEF, 0xBB, 0xBF] }

  /** searchTreeParse(): the content behind a byte order mark, without null bytes. */
  function ReadConfig(config: Bytes): Option<Config> {
    if 0 in config then None else ReadLines(Nothing, Lines(if HasMark(config) then config[3..] else config))
  }

  /** The paths of all nodes: the root, every defined path, and everything above one. */
  ghost predicate ExactNodes(nodes: Arena, e: Explicit) {
    forall p :: p in nodes <==> p == [] || exists q :: q in e && p in Lineage(q)
  }

  /** A parsed tree: linked by paths, with exactly the nodes and policies that the config asks for. */
  ghost predicate Parsed(nodes: Arena, e: Explicit) { Linked(nodes) && Right(nodes, e) && ExactNodes(nodes, e) }

  lemma {:induction false} ExactAfterDefine(before: Arena, nodes: Arena, e: Explicit, path: Bytes, policy: Policy)
    requires ExactNodes(before, e) && nodes.Keys == before.Keys + Lineage(path) && path !in e
    ensures ExactNodes(nodes, e[path := policy])
  {
    hide Lineage;
    var f := e[path := policy];
    forall p ensures p in nodes <==> p == [] || exists q :: q in f && p in Lineage(q) {
      assert p in nodes <==> p in before || p in Lineage(path);
      if exists q :: q in e && p in Lineage(q) {
        var q :| q in e && p in Lineage(q);
        assert q in f;
      }
      assert path in f;
    }
  }

  /** The line loop: it consumes the whole config, line by line, and builds the tree that the lines
      describe; it fails exactly when one of them is an error. */
  method Parse(config: Bytes) returns (parser: Parser, ok: bool)
    ensures fresh(parser) && (ok <==> ReadConfig(config).Some?)
    ensures ok ==> parser.Valid() && parser.Settings() == ReadConfig(config).value
  {
    hide ReadLine, ReadLines, ReadConfig, Lines, LineEnd, Parsed;
    parser := new Parser();
    ok := false;
    if 0 in config {
      NullIsAnError(config);
      return;
    }
    var position := 0;
    if |config| >= 3 && config[0] == 0xEF && config[1] == 0xBB && config[2] == 0xBF { position := 3; }
    Mark(config, position);
    while position < |config|
      invariant position <= |config| && fresh(parser) && parser.Valid()
      invariant ReadConfig(config) == ReadLines(parser.Settings(), Lines(config[position..]))
    {
      var line := GetLine(config, position);
      NextLine(parser.Settings(), config, position, line);
      var fine := parser.ParseLine(line);
      if !fine { return; }
      position := position + |line|;
      position := position + if position < |config| then 1 else 0;
    }
    assert config[position..] == [];
    NoMoreLines(parser.Settings());
    ok := true;
  }

  lemma {:induction false} NullIsAnError(config: Bytes)
    requires 0 in config
    ensures ReadConfig(config).None?
  {
  }

  lemma {:induction false} NoMoreLines(c: Config)
    ensures ReadLines(c, Lines([])) == Some(c)
  {
  }

  lemma {:induction false} NothingParsed()
    ensures Parsed(map[[] := Rec(NoPolicy, false, [])], map[])
  {
  }

  lemma {:induction false} Mark(config: Bytes, position: nat)
    requires 0 !in config && position <= |config|
    requires position == if |config| >= 3 && config[0] == 0xEF && config[1] == 0xBB && config[2] == 0xBF then 3 else 0
    ensures ReadConfig(config) == ReadLines(Nothing, Lines(config[position..]))
  {
    hide Lines, ReadLines;
    if |config| >= 3 { assert config[..3] == [config[0], config[1], config[2]]; }
    assert config[0..] == config;
  }

  /** The line at a position, and what reading on from there means. */
  lemma {:induction false} NextLine(c: Config, config: Bytes, position: nat, line: Bytes)
    requires position < |config|
    requires line == config[position..position + LineEnd(config[position..])]
    ensures var end := position + |line|;
      && end <= |config|
      && ReadLines(c, Lines(config[position..])) ==
         if ReadLine(c, line).None? then None
         else ReadLines(ReadLine(c, line).value, Lines(config[end + (if end < |config| then 1 else 0)..]))
  {
    hide ReadLine, LineEnd, ReadLines, Lines;
    var s := config[position..];
    var n := LineEnd(s);
    var next := if n < |s| then s[n + 1..] else [];
    assert s[..n] == line;
    assert next == config[position + n + (if position + n < |config| then 1 else 0)..];
    LinesStep(c, s);
  }

  lemma {:induction false} LinesStep(c: Config, s: Bytes)
    requires s != []
    ensures var n := LineEnd(s);
      ReadLines(c, Lines(s)) ==
        if ReadLine(c, s[..n]).None? then None
        else ReadLines(ReadLine(c, s[..n]).value, Lines(if n < |s| then s[n + 1..] else []))
  {
    hide ReadLine, LineEnd;
    var n := LineEnd(s);
    var rest := Lines(if n < |s| then s[n + 1..] else []);
    assert Lines(s) == [s[..n]] + rest && Lines(s)[1..] == rest;
  }

  // ----- order -----

  /** A path that the config gives a policy. */
  datatype Definition = Definition(path: Bytes, policy: Policy)

  /** Lines that are no section, no expression and no comment define paths. */
  predicate Defines(section: Policy, line: Bytes) {
    !Comment(line) && Section(line).None? && !section.Ignore? && !section.Summarize?
  }

  /** The definitions of some lines, in a section that lines before them started. */
  function DefinitionsIn(section: Policy, lines: seq<Bytes>): seq<Definition>
    decreases |lines|
  {
    if lines == [] then []
    else
      (if Defines(section, lines[0]) then [Definition(StripSlashes(lines[0]), section)] else [])
      + DefinitionsIn(NextSection(section, lines[0]), lines[1..])
  }

  function NextSection(section: Policy, line: Bytes): Policy {
    if !Comment(line) && Section(line).Some? then Section(line).value else section
  }

  /** Every line is in order by itself, whatever the others define. */
  predicate Lawful(section: Policy, lines: seq<Bytes>)
    decreases |lines|
  {
    lines == [] || (LawfulLine(section, lines[0]) && Lawful(NextSection(section, lines[0]), lines[1..]))
  }

  predicate LawfulLine(section: Policy, line: Bytes) {
    || Comment(line) || Section(line).Some?
    || (&& !(line[0] == 91 && line[|line| - 1] == 93) && !section.NoPolicy?
        && (section.Ignore? || section.Summarize? || (line[0] == SLASH && !PathContainsDotElements(line))))
  }

  /** The definitions as a table, or None if two of them are for the same path. */
  function Gather(e: Explicit, defs: seq<Definition>): Option<Explicit>
    decreases |defs|
  {
    if defs == [] then Some(e)
    else
      var path := defs[0].path;
      if path in e then None else Gather(e[path := defs[0].policy], defs[1..])
  }

  /** Reading lines gathers their definitions, and fails exactly if a line is out of order or a path is
      defined twice. */
  lemma {:induction false} ReadingGathers(c: Config, lines: seq<Bytes>)
    ensures var r, g := ReadLines(c, lines), Gather(c.explicit, DefinitionsIn(c.section, lines));
      && (r.Some? <==> Lawful(c.section, lines) && g.Some?)
      && (r.Some? ==> g == Some(r.value.explicit))
    decreases |lines|
  {
    hide PathContainsDotElements, StripSlashes, Section, Comment;
    if lines != [] {
      var line := lines[0];
      var defs, rest := DefinitionsIn(c.section, lines), DefinitionsIn(NextSection(c.section, line), lines[1..]);
      var r := ReadLine(c, line);
      if r.Some? {
        ReadingGathers(r.value, lines[1..]);
        assert r.value.section == NextSection(c.section, line);
      }
      if Defines(c.section, line) {
        var d := Definition(StripSlashes(line), c.section);
        assert defs == [d] + rest && defs[0] == d && defs[1..] == rest;
      } else {
        assert defs == rest;
      }
    }
  }

  lemma {:induction false} CopyStartsSection(c: Config)
    ensures ReadLine(c, COPY) == Some(c.(section := Copy))
  {
    assert COPY[0] == 91;
    assert !WhitespaceOnly(COPY) by { assert COPY[0] != 32 && COPY[0] != 9; }
  }

  /** What gathering yields: every definition, each for a path of its own, */
  lemma {:induction false} GatherHas(e: Explicit, defs: seq<Definition>)
    requires Gather(e, defs).Some?
    ensures var g := Gather(e, defs).value;
      && (forall p :: p in e ==> p in g && g[p] == e[p])
      && (forall i :: 0 <= i < |defs| ==> Entered(e, g, defs[i]))
    ensures forall i, j :: 0 <= i < j < |defs| ==> defs[i].path != defs[j].path
    decreases |defs|
  {
    if defs != [] {
      var f := e[defs[0].path := defs[0].policy];
      GatherHas(f, defs[1..]);
      forall i | 1 <= i < |defs| ensures defs[i] == defs[1..][i - 1] && Entered(f, Gather(e, defs).value, defs[i]) {}
    }
  }

  predicate Entered(e: Explicit, g: Explicit, d: Definition) {
    var p := d.path;
    p !in e && p in g && g[p] == d.policy
  }

  predicate DefinesPath(defs: seq<Definition>, p: Bytes) { exists i :: 0 <= i < |defs| && defs[i].path == p }

  /** and nothing else. */
  lemma {:induction false} GatherOnly(e: Explicit, defs: seq<Definition>, p: Bytes)
    requires Gather(e, defs).Some? && p in Gather(e, defs).value && p !in e
    ensures DefinesPath(defs, p)
    decreases |defs|
  {
    var path := defs[0].path;
    if p == path {
      assert defs[0].path == p;
    } else {
      GatherOnly(e[path := defs[0].policy], defs[1..], p);
      var i :| 0 <= i < |defs[1..]| && defs[1..][i].path == p;
      assert defs[i + 1].path == p;
    }
  }

  /** Definitions of different paths can be gathered. */
  lemma {:induction false} DistinctGather(e: Explicit, defs: seq<Definition>)
    requires forall i :: 0 <= i < |defs| ==> defs[i].path !in e
    requires forall i, j :: 0 <= i < j < |defs| ==> defs[i].path != defs[j].path
    ensures Gather(e, defs).Some?
    decreases |defs|
  {
    if defs != [] {
      assert forall i :: 0 <= i < |defs| - 1 ==> defs[1..][i] == defs[i + 1];
      DistinctGather(e[defs[0].path := defs[0].policy], defs[1..]);
    }
  }

  /** In lists with the same elements, what occurs twice in one occurs twice in the other. */
  lemma {:induction false} TwiceInBoth(a: seq<Definition>, b: seq<Definition>, i: nat, j: nat)
    requires multiset(a) == multiset(b) && i < j < |b| && b[i] == b[j]
    ensures exists k, l :: 0 <= k < l < |a| && a[k] == a[l] == b[i]
  {
    var x := b[i];
    assert b == b[..i] + [x] + b[i + 1..j] + [x] + b[j + 1..];
    assert multiset(b)[x] >= 2;
    TwoPlaces(a, x);
  }

  lemma {:induction false} TwoPlaces(a: seq<Definition>, x: Definition)
    requires multiset(a)[x] >= 2
    ensures exists k, l :: 0 <= k < l < |a| && a[k] == a[l] == x
  {
    assert a == [a[0]] + a[1..];
    if a[0] == x {
      assert multiset(a[1..])[x] >= 1;
      assert x in a[1..];
      var l :| 0 <= l < |a[1..]| && a[1..][l] == x;
      assert a[0] == a[l + 1] == x;
    } else {
      TwoPlaces(a[1..], x);
      var k, l :| 0 <= k < l < |a[1..]| && a[1..][k] == a[1..][l] == x;
      assert a[k + 1] == a[l + 1] == x;
    }
  }

  lemma {:induction false} SameElements(a: seq<Definition>, b: seq<Definition>, i: nat)
    requires multiset(a) == multiset(b) && i < |b|
    ensures exists k :: 0 <= k < |a| && a[k] == b[i]
  {
    assert b[i] in multiset(a);
  }

  lemma {:induction false} GatherAnyOrder(a: seq<Definition>, b: seq<Definition>)
    requires multiset(a) == multiset(b) && Gather(map[], a).Some?
    ensures Gather(map[], b) == Gather(map[], a)
  {
    hide Gather;
    GatherHas(map[], a);
    forall i, j | 0 <= i < j < |b| ensures b[i].path != b[j].path {
      SameElements(a, b, i);
      SameElements(a, b, j);
      if b[i] == b[j] { TwiceInBoth(a, b, i, j); }
    }
    DistinctGather(map[], b);
    GatherHas(map[], b);
    var g, h := Gather(map[], a).value, Gather(map[], b).value;
    forall p ensures (p in g <==> p in h) && (p in g ==> g[p] == h[p]) {
      if p in g {
        GatherOnly(map[], a, p);
        var i :| 0 <= i < |a| && a[i].path == p;
        SameElements(b, a, i);
      }
      if p in h {
        GatherOnly(map[], b, p);
        var i :| 0 <= i < |b| && b[i].path == p;
        SameElements(a, b, i);
      }
    }
    assert g == h;
  }

  /** The order of the definitions does not matter, wherever they stand among sections, comments and
      expressions: if a config parses, so does every config of lawful lines with the same definitions, and
      all trees have the same paths with the same policies. */
  lemma {:induction false} OrderDoesNotMatter(a: seq<Bytes>, b: seq<Bytes>, m: Arena, n: Arena)
    requires multiset(DefinitionsIn(NoPolicy, a)) == multiset(DefinitionsIn(NoPolicy, b))
    requires ReadLines(Nothing, a).Some? && Lawful(NoPolicy, b)
    requires Parsed(m, ReadLines(Nothing, a).value.explicit)
    requires ReadLines(Nothing, b).Some? ==> Parsed(n, ReadLines(Nothing, b).value.explicit)
    ensures ReadLines(Nothing, b).Some?
    ensures m.Keys == n.Keys && forall p :: p in m ==> m[p].policy == n[p].policy && m[p].inherited == n[p].inherited
  {
    hide ReadLines, Lineage, Nearest, Up, DefinitionsIn, Lawful;
    ReadingGathers(Nothing, a);
    ReadingGathers(Nothing, b);
    GatherAnyOrder(DefinitionsIn(NoPolicy, a), DefinitionsIn(NoPolicy, b));
  }
}
