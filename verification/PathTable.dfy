/** The table of all loaded paths. The program looks a found path up there, wherever its node is; the pass
    looks for it among the siblings that it is merging. Both find the same node. */
module PathTable {
  import opened Data
  import opened Metadata
  import opened Backup
  import opened BackupFrame
  import opened FixedConfig
  import opened Chains
  import opened Naming
  import opened Runs
  import opened FileSystem
  import Restore
  import opened Sightings
  import opened Session

  /** What loading puts into the table: every node at every depth, by its path. */
  function Table(ns: seq<Node>): map<Bytes, Node>
    decreases ns
  {
    if ns == [] then map[] else map[ns[0].path := ns[0]] + Table(ns[0].subs) + Table(ns[1..])
  }

  // ----- where a path is in the table -----

  lemma {:induction false} KeysBelow(ns: seq<Node>, dir: Bytes, q: Bytes) returns (i: nat)
    requires Restore.NamedList(ns, dir) && q in Table(ns)
    ensures i < |ns| && Below(q, ns[i].path)
    decreases ns
  {
    hide Below, IsChild;
    if q == ns[0].path {
      BelowSelf(q);
      i := 0;
    } else if q in Table(ns[0].subs) {
      assert Restore.Named(ns[0]);
      var j := KeysBelow(ns[0].subs, ns[0].path, q);
      ChildBelow(ns[0].path, ns[0].subs[j].path);
      BelowTrans(q, ns[0].subs[j].path, ns[0].path);
      i := 0;
    } else {
      RestIsNamed(ns, dir);
      var j := KeysBelow(ns[1..], dir, q);
      i := j + 1;
    }
  }

  lemma {:induction false} BelowSelf(q: Bytes)
    ensures Below(q, q)
  {
  }

  /** Below a node the table has what the table of its subnodes has. */
  lemma {:induction false} TableInside(ns: seq<Node>, dir: Bytes, i: nat, q: Bytes)
    requires Restore.NamedList(ns, dir) && i < |ns| && Below(q, ns[i].path)
    ensures q == ns[i].path ==> q in Table(ns) && Table(ns)[q] == ns[i]
    ensures q != ns[i].path ==> (q in Table(ns) <==> q in Table(ns[i].subs))
    ensures q != ns[i].path && q in Table(ns) ==> Table(ns)[q] == Table(ns[i].subs)[q]
    decreases |ns|
  {
    hide Below, IsChild;
    assert Restore.Named(ns[0]);
    if i == 0 {
      if q in Table(ns[1..]) { OneListOnly(ns, dir, q); }
      if q == ns[0].path && q in Table(ns[0].subs) { NotInside(ns[0], q); }
    } else {
      RestIsNamed(ns, dir);
      TableInside(ns[1..], dir, i - 1, q);
      ChildrenApart(dir, ns[0].path, ns[i].path, q);
      if q in Table(ns[0].subs) { NotBeside(ns[0], q); }
      BelowSelf(ns[0].path);
    }
  }

  /** What the rest of a list holds is not below its first node. */
  lemma {:induction false} OneListOnly(ns: seq<Node>, dir: Bytes, q: Bytes)
    requires Restore.NamedList(ns, dir) && ns != [] && q in Table(ns[1..])
    ensures !Below(q, ns[0].path)
  {
    hide Below, IsChild;
    RestIsNamed(ns, dir);
    var j := KeysBelow(ns[1..], dir, q);
    assert ns[1..][j] == ns[j + 1];
    ChildrenApart(dir, ns[0].path, ns[j + 1].path, q);
  }

  lemma {:induction false} NotInside(n: Node, q: Bytes)
    requires Restore.Named(n) && q in Table(n.subs)
    ensures q != n.path
  {
    var j := KeysBelow(n.subs, n.path, q);
    ChildBelow(n.path, n.subs[j].path);
  }

  lemma {:induction false} NotBeside(n: Node, q: Bytes)
    requires Restore.Named(n) && q in Table(n.subs)
    ensures Below(q, n.path)
  {
    hide Below, IsChild;
    var j := KeysBelow(n.subs, n.path, q);
    ChildBelow(n.path, n.subs[j].path);
    BelowTrans(q, n.subs[j].path, n.path);
  }

  lemma {:induction false} ChildrenApart(dir: Bytes, a: Bytes, b: Bytes, q: Bytes)
    requires IsChild(dir, a) && IsChild(dir, b) && a != b
    ensures !(Below(q, a) && Below(q, b))
  {
    hide IsChild, Below;
    if Below(q, a) && Below(q, b) { ChildrenDisjoint(dir, a, b, q); }
  }

  /** For a path in the listed directory, the table answers like a search among the siblings. */
  lemma {:induction false} TableIsLookup(ns: seq<Node>, dir: Bytes, q: Bytes)
    requires Restore.NamedList(ns, dir) && IsChild(dir, q)
    ensures q in Table(ns) <==> Lookup(ns, q).Some?
    ensures q in Table(ns) ==> Table(ns)[q] == Lookup(ns, q).value
  {
    hide Below, IsChild;
    if q in Table(ns) {
      var i := KeysBelow(ns, dir, q);
      BelowSelf(q);
      if q != ns[i].path { ChildrenApart(dir, q, ns[i].path, q); }
    }
    if Lookup(ns, q).Some? {
      BelowSelf(q);
      TableInside(ns, dir, IndexOf(ns, q), q);
    }
  }

  /** For any path, it answers like the way through all directories above it. */
  lemma {:induction false} TableIsLocate(ns: seq<Node>, dir: Bytes, links: Links)
    requires Restore.NamedList(ns, dir) && Ladder(links, dir)
    ensures Goal(links) in Table(ns) <==> Locate(ns, links).Some?
    ensures Goal(links) in Table(ns) ==> Table(ns)[Goal(links)] == Locate(ns, links).value
    decreases |links|
  {
    hide Below, IsChild;
    TableIsLookup(ns, dir, links[0]);
    if |links| > 1 {
      GoalIsBelow(links, dir);
      assert Goal(links[1..]) == Goal(links);
      if Lookup(ns, links[0]).Some? {
        var i := IndexOf(ns, links[0]);
        assert Restore.Named(ns[i]);
        TableInside(ns, dir, i, Goal(links));
        TableIsLocate(ns[i].subs, ns[i].path, links[1..]);
      } else if Goal(links) in Table(ns) {
        var j := KeysBelow(ns, dir, Goal(links));
        ChildrenApart(dir, ns[j].path, links[0], Goal(links));
      }
    }
  }

  // ----- the pass with the table -----

  /** What a result does if its path is looked up in the table. New nodes are not put into it. None if the
      node that is found there belongs to another list. */
  function MergeOneByTable(env: Env, known: set<Bytes>, ns: seq<Node>, f: Found): Option<seq<Node>>
    decreases f
  {
    if f.entry.Other? then Some(ns)
    else if f.path !in known then
      var n :- MergeInsideByTable(env, known, NewNode(f), f);
      Some([CompleteNode(env, n, f)] + ns)
    else
      var i := IndexOf(ns, f.path);
      if i == |ns| then None
      else
        var n :- MergeInsideByTable(env, known, HandleFoundNode(env, ns[i], f), f);
        Some(ns[i := CompleteNode(env, n, f)])
  }

  function MergeInsideByTable(env: Env, known: set<Bytes>, n: Node, f: Found): Option<Node>
    decreases f, 0
  {
    if f.entry.Dir? then
      var subs :- MergeAllByTable(env, known, n.subs, f.children);
      Some(n.(subs := subs))
    else Some(n)
  }

  function MergeAllByTable(env: Env, known: set<Bytes>, ns: seq<Node>, fs: seq<Found>): Option<seq<Node>>
    decreases fs
  {
    if fs == [] then Some(ns)
    else
      var rs :- MergeOneByTable(env, known, ns, fs[0]);
      MergeAllByTable(env, known, rs, fs[1..])
  }

  function SubsAt(ns: seq<Node>, path: Bytes): seq<Node> {
    var n := Lookup(ns, path);
    if n.Some? then n.value.subs else []
  }

  /** The table knows of the found paths exactly those that the lists have where they are found. */
  ghost predicate Tells(known: set<Bytes>, ns: seq<Node>, fs: seq<Found>)
    decreases fs
  {
    forall i :: 0 <= i < |fs| && !fs[i].entry.Other? ==>
      && (fs[i].path in known <==> Lookup(ns, fs[i].path).Some?)
      && (fs[i].entry.Dir? ==> Tells(known, SubsAt(ns, fs[i].path), fs[i].children))
  }

  lemma {:induction false} TellsWiped(known: set<Bytes>, ns: seq<Node>, fs: seq<Found>)
    requires Tells(known, ns, fs)
    ensures Tells(known, WipeAll(ns), fs)
    decreases fs
  {
    forall i | 0 <= i < |fs| && !fs[i].entry.Other?
      ensures fs[i].path in known <==> Lookup(WipeAll(ns), fs[i].path).Some?
      ensures fs[i].entry.Dir? ==> Tells(known, SubsAt(WipeAll(ns), fs[i].path), fs[i].children)
    {
      var path := fs[i].path;
      WipedLookup(ns, path);
      if fs[i].entry.Dir? { TellsWiped(known, SubsAt(ns, path), fs[i].children); }
    }
  }

  lemma {:induction false} WipedLookup(ns: seq<Node>, path: Bytes)
    ensures Lookup(WipeAll(ns), path).Some? <==> Lookup(ns, path).Some?
    ensures SubsAt(WipeAll(ns), path) == WipeAll(SubsAt(ns, path))
  {
    forall i | 0 <= i < |ns| ensures WipeRec(ns[i]).path == ns[i].path { WipeKeepsPath(ns[i]); }
    IndexOfSamePaths(WipeAll(ns), ns, path);
  }

  lemma {:induction false} TellsInside(env: Env, known: set<Bytes>, ns: seq<Node>, f: Found)
    requires Tells(known, SubsAt(ns, f.path), f.children)
    ensures Tells(known, Reached(env, Lookup(ns, f.path), f).subs, f.children)
  {
    hide Tells, WipeAll, HandleNodeChanges;
    var prior := Lookup(ns, f.path);
    if prior.Some? {
      TellsWiped(known, prior.value.subs, f.children);
      assert Reached(env, prior, f).subs == if WipesSubnodes(prior.value, f.policy) then WipeAll(prior.value.subs) else prior.value.subs;
    }
  }

  lemma {:induction false} TellsLater(env: Env, known: set<Bytes>, ns: seq<Node>, fs: seq<Found>)
    requires Tells(known, ns, fs) && DistinctPaths(fs) && fs != []
    ensures Tells(known, MergeOne(env, ns, fs[0]), fs[1..])
  {
    hide MergeOne, Lookup;
    forall i | 0 <= i < |fs[1..]| ensures Lookup(MergeOne(env, ns, fs[0]), fs[1..][i].path) == Lookup(ns, fs[1..][i].path) {
      assert fs[1..][i] == fs[i + 1];
      MergeOneLookup(env, ns, fs[0], fs[i + 1].path);
    }
  }

  lemma {:induction false} OneByTable(env: Env, known: set<Bytes>, ns: seq<Node>, f: Found)
    requires Tells(known, ns, [f]) && DistinctPaths(f.children)
    ensures MergeOneByTable(env, known, ns, f) == Some(MergeOne(env, ns, f))
    decreases f
  {
    hide CompleteNode, HandleFoundNode, MergeAll, MergeAllByTable, DistinctPaths, Tells;
    assert !f.entry.Other? ==> (f.path in known <==> Lookup(ns, f.path).Some?) by { TellsOne(known, ns, f); }
    if f.entry.Dir? {
      TellsOne(known, ns, f);
      TellsInside(env, known, ns, f);
      AllByTable(env, known, Reached(env, Lookup(ns, f.path), f).subs, f.children);
    }
  }

  lemma {:induction false} TellsOne(known: set<Bytes>, ns: seq<Node>, f: Found)
    ensures Tells(known, ns, [f]) <==> (!f.entry.Other? ==>
      (f.path in known <==> Lookup(ns, f.path).Some?) && (f.entry.Dir? ==> Tells(known, SubsAt(ns, f.path), f.children)))
  {
    assert [f][0] == f;
  }

  lemma {:induction false} AllByTable(env: Env, known: set<Bytes>, ns: seq<Node>, fs: seq<Found>)
    requires Tells(known, ns, fs) && DistinctPaths(fs)
    ensures MergeAllByTable(env, known, ns, fs) == Some(MergeAll(env, ns, fs))
    decreases fs
  {
    hide MergeOne, MergeOneByTable, Lookup, SubsAt;
    if fs != [] {
      TellsOne(known, ns, fs[0]);
      OneByTable(env, known, ns, fs[0]);
      TellsLater(env, known, ns, fs);
      assert DistinctPaths(fs[1..]) by { assert forall i :: 0 <= i < |fs[1..]| ==> fs[1..][i] == fs[i + 1]; }
      AllByTable(env, known, MergeOne(env, ns, fs[0]), fs[1..]);
    }
  }

  /** The table of a loaded tree tells so. */
  lemma {:induction false} TableTells(known: set<Bytes>, ns: seq<Node>, dir: Bytes, fs: seq<Found>)
    requires Restore.NamedList(ns, dir) && AllWritable(fs, dir)
    requires forall q :: Below(q, dir) && q != dir ==> (q in known <==> q in Table(ns))
    ensures Tells(known, ns, fs)
    decreases fs
  {
    hide Table, Lookup, PlacedSelf, Below, IsChild;
    forall i | 0 <= i < |fs| && !fs[i].entry.Other?
      ensures fs[i].path in known <==> Lookup(ns, fs[i].path).Some?
      ensures fs[i].entry.Dir? ==> Tells(known, SubsAt(ns, fs[i].path), fs[i].children)
    {
      var f := fs[i];
      assert Writable(f, dir);
      PlacedIsChild(f.path, f.policy, [Point(Current, StateOf(f.entry))], dir);
      ChildBelow(dir, f.path);
      TableIsLookup(ns, dir, f.path);
      if f.entry.Dir? {
        forall q | Below(q, f.path) && q != f.path ensures q in known <==> q in Table(SubsAt(ns, f.path)) {
          TableOfSubs(ns, dir, f.path, q);
          BelowTrans(q, f.path, dir);
          NotAbove(dir, f.path, q);
        }
        SubsAreNamed(ns, dir, f.path);
        TableTells(known, SubsAt(ns, f.path), f.path, f.children);
      }
    }
  }

  lemma {:induction false} NotAbove(dir: Bytes, p: Bytes, q: Bytes)
    requires IsChild(dir, p) && Below(q, p)
    ensures q != dir
  {
  }

  lemma {:induction false} SubsAreNamed(ns: seq<Node>, dir: Bytes, path: Bytes)
    requires Restore.NamedList(ns, dir)
    ensures Restore.NamedList(SubsAt(ns, path), path)
  {
    hide IsChild;
    if Lookup(ns, path).Some? { assert Restore.Named(ns[IndexOf(ns, path)]); }
  }

  lemma {:induction false} TableOfSubs(ns: seq<Node>, dir: Bytes, path: Bytes, q: Bytes)
    requires Restore.NamedList(ns, dir) && IsChild(dir, path) && Below(q, path) && q != path
    ensures q in Table(ns) <==> q in Table(SubsAt(ns, path))
  {
    hide Below, IsChild;
    if Lookup(ns, path).Some? {
      TableInside(ns, dir, IndexOf(ns, path), q);
    } else if q in Table(ns) {
      var j := KeysBelow(ns, dir, q);
      ChildrenApart(dir, ns[j].path, path, q);
    }
  }

  /** Between runs the table of all paths and the search among siblings lead to the same pass. */
  lemma {:induction false} PassByTable(env: Env, root: SearchNode, s: Repo, run: Run)
    requires Orderly(env, root, s) && WritableRun(env, root, run)
    ensures MergeAllByTable(env, Table(s.paths).Keys, s.paths, run.found) == Some(MergeAll(env, s.paths, run.found))
  {
    hide Table, MergeAllByTable, MergeAll, Below;
    OrderlyIsRestorable(env, root, s);
    TableTells(Table(s.paths).Keys, s.paths, [], run.found);
    AllByTable(env, Table(s.paths).Keys, s.paths, run.found);
  }
}
