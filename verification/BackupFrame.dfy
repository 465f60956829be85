/** What a backup pass leaves alone: paths of nodes, and siblings that a result does not name. */
module BackupFrame {
  import opened Data
  import opened Str
  import opened Metadata
  import opened Backup

  function Lookup(ns: seq<Node>, path: Bytes): Option<Node> {
    var i := IndexOf(ns, path);
    if i == |ns| then None else Some(ns[i])
  }

  lemma {:induction false} IndexOfIs(ns: seq<Node>, i: nat)
    requires i < |ns| && (forall j :: 0 <= j < i ==> ns[j].path != ns[i].path)
    ensures IndexOf(ns, ns[i].path) == i
  {
  }

  lemma {:induction false} IndexOfSamePaths(ms: seq<Node>, ns: seq<Node>, path: Bytes)
    requires |ms| == |ns| && forall i :: 0 <= i < |ns| ==> ms[i].path == ns[i].path
    ensures IndexOf(ms, path) == IndexOf(ns, path)
  {
  }

  /** The node list a single result names, before the node is completed. */
  function Reached(env: Env, prior: Option<Node>, f: Found): Node {
    if prior.None? then NewNode(f) else HandleFoundNode(env, prior.value, f)
  }

  function Processed(env: Env, prior: Option<Node>, f: Found): Node {
    CompleteNode(env, MergeInside(env, Reached(env, prior, f), f), f)
  }

  lemma {:induction false} ProcessedPath(env: Env, prior: Option<Node>, f: Found)
    requires prior.Some? ==> prior.value.path == f.path
    ensures Processed(env, prior, f).path == f.path
  {
  }

  /** Merging one result rewrites the named sibling only. */
  lemma {:induction false} MergeOneLookup(env: Env, ns: seq<Node>, f: Found, path: Bytes)
    ensures Lookup(MergeOne(env, ns, f), path) ==
      if path == f.path && !f.entry.Other? then Some(Processed(env, Lookup(ns, path), f)) else Lookup(ns, path)
  {
    if !f.entry.Other? {
      var i := IndexOf(ns, f.path);
      ProcessedPath(env, Lookup(ns, f.path), f);
      if i == |ns| {
        assert MergeOne(env, ns, f)[1..] == ns;
      } else {
        IndexOfSamePaths(MergeOne(env, ns, f), ns, path);
      }
    }
  }

  predicate DistinctPaths(fs: seq<Found>)
    decreases fs
  {
    && (forall i, j :: 0 <= i < j < |fs| ==> fs[i].path != fs[j].path)
    && (forall i :: 0 <= i < |fs| ==> DistinctPaths(fs[i].children))
  }

  function FindFound(fs: seq<Found>, path: Bytes): Option<Found> {
    if fs == [] then None
    else if fs[0].path == path && !fs[0].entry.Other? then Some(fs[0])
    else FindFound(fs[1..], path)
  }

  lemma {:induction false} FindFoundIn(fs: seq<Found>, path: Bytes)
    ensures var r := FindFound(fs, path);
      r.Some? ==> r.value in fs && r.value.path == path && !r.value.entry.Other?
    ensures FindFound(fs, path).None? ==> forall i :: 0 <= i < |fs| && fs[i].path == path ==> fs[i].entry.Other?
  {
    if fs != [] {
      FindFoundIn(fs[1..], path);
      assert forall i :: 1 <= i < |fs| ==> fs[i] == fs[1..][i - 1];
    }
  }

  /** Merging a listing processes each named sibling once and leaves the others as they were. */
  lemma {:induction false} MergeAllLookup(env: Env, ns: seq<Node>, fs: seq<Found>, path: Bytes)
    requires DistinctPaths(fs)
    ensures Lookup(MergeAll(env, ns, fs), path) ==
      if FindFound(fs, path).Some? then Some(Processed(env, Lookup(ns, path), FindFound(fs, path).value)) else Lookup(ns, path)
    decreases |fs|
  {
    if fs != [] {
      MergeOneLookup(env, ns, fs[0], path);
      MergeAllLookup(env, MergeOne(env, ns, fs[0]), fs[1..], path);
      FindFoundIn(fs[1..], path);
    }
  }

  lemma {:induction false} WipeKeepsPath(n: Node)
    ensures WipeRec(n).path == n.path && WipeRec(n).history == n.history && Wiped(WipeRec(n))
  {
  }

  lemma {:induction false} MarkKeepsPath(n: Node, extend: bool)
    ensures MarkRemovedRec(n, extend).path == n.path
  {
  }

  lemma {:induction false} RemovedKeepsPath(n: Node, policy: Policy)
    ensures HandleRemovedPath(n, policy).path == n.path
  {
  }

  lemma {:induction false} NotFoundKeepsPath(env: Env, n: Node, parent: Option<SearchNode>, policy: Policy)
    ensures HandleNotFound(env, n, parent, policy).path == n.path
  {
    hide WipeRec, HandleRemovedPath, SupposedPolicy;
    WipeKeepsPath(n);
    var p := SupposedPolicy(env, n.path, parent, policy);
    if p.Some? { RemovedKeepsPath(n, p.value); }
  }
}
