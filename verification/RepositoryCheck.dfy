/** What the integrity check reports about a repository: exactly the paths with a point whose stored file
    is not the one that was stored, as far as size and hash can tell. */
module RepositoryCheck {
  import opened Data
  import opened Metadata
  import opened Backup
  import opened RepoPath
  import opened BlobStore
  import opened GarbageCollector
  import opened Stock
  import opened RefCountsExact
  import opened History
  import opened FixedConfig
  import opened Runs
  import opened Integrity

  /** A stored file that is missing, no regular file, of another size, or of another hash than the content
      that was stored there. */
  ghost predicate Harmed(env: Env, blobs: Blobs, stored: map<Bytes, Integrity.Found>, p: Bytes)
    requires p in blobs
  {
    || p !in stored || !stored[p].Regular?
    || |stored[p].content| != |blobs[p]| || env.digest(stored[p].content) != env.digest(blobs[p])
  }

  /** A point whose content is in a file of its own, at the given path. */
  predicate PointAt(p: Point, path: Bytes) {
    p.state.RegularFile? && p.state.info.size > 20 && FilePath(p.state.info.hash, p.state.info.size, p.state.info.slot) == path
  }

  predicate HasPointIn(n: Node, paths: set<Bytes>) {
    exists i, path :: 0 <= i < |n.history| && path in paths && PointAt(n.history[i], path)
  }

  /** The nodes with a point at one of the paths: a node, what is below it, then its siblings. */
  function NodesAt(ns: seq<Node>, paths: set<Bytes>): seq<Node>
    decreases ns
  {
    if ns == [] then []
    else (if HasPointIn(ns[0], paths) then [ns[0]] else []) + NodesAt(ns[0].subs, paths) + NodesAt(ns[1..], paths)
  }

  /** The harmed files among those that are referred to. */
  ghost predicate AreHarmed(env: Env, blobs: Blobs, stored: map<Bytes, Integrity.Found>, refs: set<Bytes>, harmed: set<Bytes>) {
    refs <= blobs.Keys && forall p :: p in refs ==> (p in harmed <==> Harmed(env, blobs, stored, p))
  }

  lemma {:induction false} FileVerdict(env: Env, blobs: Blobs, stored: map<Bytes, Integrity.Found>, i: FileInfo)
    requires StoreOk(env, blobs) && PathOf(i) in blobs
    ensures Healthy(env, stored, i) <==> !Harmed(env, blobs, stored, PathOf(i))
  {
    hide FilePath;
    assert PathOf(i) == FilePath(i.hash, i.size, i.slot);
  }

  lemma {:induction false} NodeVerdict(env: Env, blobs: Blobs, stored: map<Bytes, Integrity.Found>, n: Node, harmed: set<Bytes>)
    requires StoreOk(env, blobs) && AreHarmed(env, blobs, stored, PointPaths(n.history), harmed)
    ensures Broken(env, stored, n) <==> HasPointIn(n, harmed)
  {
    hide Harmed, Healthy, StoreOk, FilePath, PointPaths;
    forall i | 0 <= i < |n.history| && Stored(n.history[i].state)
      ensures Healthy(env, stored, n.history[i].state.info) <==> PathOf(n.history[i].state.info) !in harmed
      ensures PointAt(n.history[i], PathOf(n.history[i].state.info))
    {
      PointIsReferenced(n.history, i);
      FileVerdict(env, blobs, stored, n.history[i].state.info);
    }
    if Broken(env, stored, n) {
      var i :| 0 <= i < |n.history| && !PointIsHealthy(env, stored, n.history[i]);
      assert PointAt(n.history[i], PathOf(n.history[i].state.info));
    }
    if HasPointIn(n, harmed) {
      var i, path :| 0 <= i < |n.history| && path in harmed && PointAt(n.history[i], path);
      assert !PointIsHealthy(env, stored, n.history[i]);
    }
  }

  lemma {:induction false} VerdictIsRight(env: Env, blobs: Blobs, stored: map<Bytes, Integrity.Found>, ns: seq<Node>, harmed: set<Bytes>)
    requires StoreOk(env, blobs) && NoneWiped(ns) && AreHarmed(env, blobs, stored, ReferencedPaths(ns), harmed)
    ensures BrokenNodes(env, stored, ns) == NodesAt(ns, harmed)
    decreases ns
  {
    hide Harmed, StoreOk, Broken, HasPointIn, PointPaths;
    if ns != [] {
      NodeVerdict(env, blobs, stored, ns[0], harmed);
      VerdictIsRight(env, blobs, stored, ns[0].subs, harmed);
      VerdictIsRight(env, blobs, stored, ns[1..], harmed);
      var self := if Broken(env, stored, ns[0]) then [ns[0]] else [];
      assert BrokenWithin(env, stored, ns[0]) == self + BrokenNodes(env, stored, ns[0].subs);
    }
  }

  predicate NoneWiped(ns: seq<Node>)
    decreases ns
  {
    ns == [] || (!Wiped(ns[0]) && NoneWiped(ns[0].subs) && NoneWiped(ns[1..]))
  }

  lemma {:induction false} FreshIsNotWiped(ns: seq<Node>)
    requires forall i :: 0 <= i < |ns| ==> Fresh(ns[i])
    ensures NoneWiped(ns)
    decreases ns
  {
    if ns != [] {
      assert Fresh(ns[0]);
      FreshIsNotWiped(ns[0].subs);
      FreshIsNotWiped(ns[1..]);
    }
  }

  lemma {:induction false} NothingHarmed(ns: seq<Node>)
    ensures NodesAt(ns, {}) == []
    decreases ns
  {
    if ns != [] {
      NothingHarmed(ns[0].subs);
      NothingHarmed(ns[1..]);
      assert !HasPointIn(ns[0], {});
    }
  }

  lemma {:induction false} ReversedElements(ns: seq<Node>)
    ensures multiset(Reversed(ns)) == multiset(ns)
  {
    if ns != [] {
      ReversedElements(ns[1..]);
      assert ns == [ns[0]] + ns[1..];
    }
  }

  lemma {:induction false} SoundIsChecked(env: Env, root: SearchNode, s: Repo, stored: map<Bytes, Integrity.Found>, harmed: set<Bytes>)
    requires Sound(env, root, s)
    requires AreHarmed(env, s.blobs, stored, ReferencedPaths(s.paths), harmed)
    ensures BrokenNodes(env, stored, s.paths) == NodesAt(s.paths, harmed)
    ensures ReferencedPaths(s.paths) <= s.blobs.Keys
  {
    hide StoreOk, Stocked, Harmed;
    forall i | 0 <= i < |s.paths| ensures Fresh(s.paths[i]) { assert Untouched(s.paths[i]); }
    FreshIsNotWiped(s.paths);
    StockedIsReferenced(s.blobs, s.paths);
    VerdictIsRight(env, s.blobs, stored, s.paths, harmed);
  }

  /** Every file that the metadata refers to is as it was stored. */
  ghost predicate Intact(s: Repo, stored: map<Bytes, Integrity.Found>) {
    forall p :: p in ReferencedPaths(s.paths) ==> p in s.blobs && p in stored && stored[p] == Integrity.Regular(s.blobs[p])
  }

  lemma {:induction false} IntactIsHealthy(env: Env, root: SearchNode, s: Repo, stored: map<Bytes, Integrity.Found>)
    requires Sound(env, root, s) && Intact(s, stored)
    ensures BrokenNodes(env, stored, s.paths) == []
  {
    hide Sound, NodesAt, BrokenNodes, ReferencedPaths;
    SoundIsChecked(env, root, s, stored, {});
    NothingHarmed(s.paths);
  }

  /** The check of a loaded repository. It reports exactly the nodes with a point at a harmed file, each
      once, and nothing if every stored file is as it was stored. */
  method CheckRepository(env: Env, ghost root: SearchNode, s: Repo, stored: map<Bytes, Integrity.Found>, ghost harmed: set<Bytes>)
    returns (broken: seq<Node>)
    requires Sound(env, root, s)
    requires AreHarmed(env, s.blobs, stored, ReferencedPaths(s.paths), harmed)
    ensures broken == Reversed(NodesAt(s.paths, harmed)) && multiset(broken) == multiset(NodesAt(s.paths, harmed))
    ensures Intact(s, stored) ==> broken == []
  {
    hide Sound, NodesAt, BrokenNodes, LookedAll, FirstTimes, Sizes, HasPointIn, Hides, Reaches;
    SoundIsChecked(env, root, s, stored, harmed);
    var announced, progress;
    ghost var checks;
    broken, announced, progress, checks := CheckIntegrity(env, stored, s.paths);
    ReversedElements(NodesAt(s.paths, harmed));
    if Intact(s, stored) { IntactIsHealthy(env, root, s, stored); }
  }
}
