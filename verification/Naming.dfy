/** Names in the path tree: every node is called by its parent's path and a name that the metadata
    reader accepts, and no two siblings are called the same. Kept by whole runs, this is what makes
    the metadata writable and what restoring relies on. */
module Naming {
  import opened Data
  import opened Str
  import opened Metadata
  import opened Backup
  import opened BackupFrame
  import opened RefCountsExact
  import History
  import opened FixedConfig
  import opened BlobStore
  import opened Finishing
  import opened Codec
  import opened Renumber
  import opened Runs
  import FileSystem
  import Restore

  predicate FitsStates(h: seq<Point>) { forall i :: 0 <= i < |h| ==> FitsState(h[i].state) }

  predicate Siblings(ns: seq<Node>) { forall i, j :: 0 <= i < j < |ns| ==> ns[i].path != ns[j].path }

  predicate PlacedSelf(path: Bytes, policy: Policy, h: seq<Point>, parent: Bytes) {
    && ValidName(Split(path).tail) && path == AppendPath(parent, Split(path).tail) && |Split(path).tail| <= SIZE_MAX
    && FitsPolicy(policy) && FitsStates(h)
  }

  /** A node that is called properly and can be written, as can everything below it. */
  predicate Placed(n: Node, parent: Bytes)
    decreases n
  {
    && PlacedSelf(n.path, n.policy, n.history, parent)
    && Siblings(n.subs) && forall i :: 0 <= i < |n.subs| ==> Placed(n.subs[i], n.path)
  }

  predicate PlacedList(ns: seq<Node>, parent: Bytes) {
    Siblings(ns) && forall i :: 0 <= i < |ns| ==> Placed(ns[i], parent)
  }

  /** A search result that can be written: its name, its policy and its link target. */
  predicate Writable(f: Found, parent: Bytes)
    decreases f
  {
    && PlacedSelf(f.path, f.policy, [Point(Current, StateOf(f.entry))], parent)
    && forall i :: 0 <= i < |f.children| ==> Writable(f.children[i], f.path)
  }

  predicate AllWritable(fs: seq<Found>, parent: Bytes) { forall i :: 0 <= i < |fs| ==> Writable(fs[i], parent) }

  // ----- one pass -----

  lemma {:induction false} WipedSelf(n: Node, parent: Bytes)
    requires PlacedSelf(n.path, n.policy, n.history, parent)
    ensures var w := WipeRec(n);
      PlacedSelf(w.path, w.policy, w.history, parent) && w.path == n.path && |w.subs| == |n.subs| && forall i :: 0 <= i < |n.subs| ==> w.subs[i] == WipeRec(n.subs[i])
  {
    hide Split;
  }

  lemma {:induction false} WipePlaced(n: Node, parent: Bytes)
    requires Placed(n, parent)
    ensures Placed(WipeRec(n), parent) && WipeRec(n).path == n.path
    decreases n
  {
    hide PlacedSelf;
    WipedSelf(n, parent);
    forall i | 0 <= i < |n.subs| ensures Placed(WipeRec(n.subs[i]), n.path) && WipeRec(n.subs[i]).path == n.subs[i].path {
      WipePlaced(n.subs[i], n.path);
    }
  }

  lemma {:induction false} MarkedSelf(n: Node, extend: bool, parent: Bytes)
    requires PlacedSelf(n.path, n.policy, n.history, parent)
    ensures var m := MarkRemovedSelf(n, extend);
      && PlacedSelf(m.path, m.policy, m.history, parent) && m.path == n.path && m.subs == n.subs
  {
    hide Split;
  }

  lemma {:induction false} MarkPlaced(n: Node, extend: bool, parent: Bytes)
    requires Placed(n, parent)
    ensures Placed(MarkRemovedRec(n, extend), parent) && MarkRemovedRec(n, extend).path == n.path
    decreases n
  {
    hide PlacedSelf, ExtendBelow, MarkRemovedSelf;
    MarkedSelf(n, extend, parent);
    var below := ExtendBelow(n, extend);
    forall i | 0 <= i < |n.subs|
      ensures Placed(MarkRemovedRec(n.subs[i], below), n.path) && MarkRemovedRec(n.subs[i], below).path == n.subs[i].path
    {
      MarkPlaced(n.subs[i], below, n.path);
    }
  }

  lemma {:induction false} NotFoundPlaced(env: Env, rule: Rule, n: Node, parent: Bytes)
    requires Placed(n, parent) && Conforms(env, rule, n)
    ensures Placed(HandleNotFound(env, n, rule.node, rule.policy), parent)
    ensures HandleNotFound(env, n, rule.node, rule.policy).path == n.path
  {
    hide WipeRec, MarkRemovedRec, PlacedSelf, SupposedPolicy, HeadState;
    SupposedIsRule(env, rule, n);
    WipePlaced(n, parent);
    MarkPlaced(n, true, parent);
    assert HandlePolicyChanges(n, n.policy) == n;
  }

  lemma {:induction false} SettlePlaced(env: Env, rule: Rule, n: Node, f: Found)
    requires PlacedList(n.subs, n.path) && Conforms(env, rule, n) && n.path == f.path && Obeys(env, rule, f)
    ensures PlacedList(SettleSubnodes(env, n, f), n.path)
  {
    hide HandleNotFound, MarkRemovedRec, WipeRec, Placed, Split;
    var r := RuleFor(env, rule, n.path).value;
    forall i | 0 <= i < |n.subs|
      ensures Placed(WipeRec(n.subs[i]), n.path) && WipeRec(n.subs[i]).path == n.subs[i].path
      ensures forall b :: Placed(MarkRemovedRec(n.subs[i], b), n.path) && MarkRemovedRec(n.subs[i], b).path == n.subs[i].path
      ensures Placed(HandleNotFound(env, n.subs[i], r.node, r.policy), n.path)
      ensures HandleNotFound(env, n.subs[i], r.node, r.policy).path == n.subs[i].path
    {
      WipePlaced(n.subs[i], n.path);
      forall b { MarkPlaced(n.subs[i], b, n.path); }
      NotFoundPlaced(env, r, n.subs[i], n.path);
    }
  }

  lemma {:induction false} CompletePlaced(env: Env, rule: Rule, n: Node, f: Found, parent: Bytes)
    requires Placed(n, parent) && Conforms(env, rule, n) && n.path == f.path && Obeys(env, rule, f)
    ensures Placed(CompleteNode(env, n, f), parent) && CompleteNode(env, n, f).path == n.path
  {
    hide SettleSubnodes, Split;
    SettlePlaced(env, rule, n, f);
  }

  lemma {:induction false} ChangesFit(env: Env, h: Hint, s: PathState, f: Found)
    requires FitsState(s) && FitsState(StateOf(f.entry))
    ensures FitsState(HandleNodeChanges(env, h, s, f).1)
  {
  }

  lemma {:induction false} ReachedPlaced(env: Env, rule: Rule, prior: Option<Node>, f: Found, parent: Bytes)
    requires Obeys(env, rule, f) && Writable(f, parent) && !f.entry.Other?
    requires prior.Some? ==> prior.value.path == f.path && Conforms(env, rule, prior.value) && Placed(prior.value, parent)
    ensures Placed(Reached(env, prior, f), parent) && Reached(env, prior, f).path == f.path
  {
    hide HandleNodeChanges, Split;
    assert FitsState(StateOf(f.entry)) by { assert FitsState([Point(Current, StateOf(f.entry))][0].state); }
    if prior.Some? && prior.value.history != [] {
      var n := prior.value;
      assert HandlePolicyChanges(n, f.policy) == n;
      assert FitsState(n.history[0].state);
      ChangesFit(env, n.hint, n.history[0].state, f);
    }
  }

  lemma {:induction false} MergeOnePlaced(env: Env, rule: Rule, ns: seq<Node>, f: Found, parent: Bytes)
    requires PlacedList(ns, parent) && AllConform(env, rule, ns) && Obeys(env, rule, f) && Writable(f, parent)
    ensures PlacedList(MergeOne(env, ns, f), parent)
    decreases f
  {
    hide HandleFoundNode, CompleteNode, PlacedSelf, Split;
    if !f.entry.Other? {
      var prior := Lookup(ns, f.path);
      var n := Reached(env, prior, f);
      ReachedConforms(env, rule, prior, f);
      ReachedPlaced(env, rule, prior, f, parent);
      if f.entry.Dir? {
        MergeAllConforms(env, Rule(f.node, f.policy), n.subs, f.children);
        MergeAllPlaced(env, Rule(f.node, f.policy), n.subs, f.children, n.path);
      }
      CompletePlaced(env, rule, MergeInside(env, n, f), f, parent);
    }
  }

  lemma {:induction false} MergeAllPlaced(env: Env, rule: Rule, ns: seq<Node>, fs: seq<Found>, parent: Bytes)
    requires PlacedList(ns, parent) && AllConform(env, rule, ns) && AllObey(env, rule, fs) && AllWritable(fs, parent)
    ensures PlacedList(MergeAll(env, ns, fs), parent)
    decreases fs
  {
    if fs != [] {
      MergeOnePlaced(env, rule, ns, fs[0], parent);
      MergeOneConforms(env, rule, ns, fs[0]);
      MergeAllPlaced(env, rule, MergeOne(env, ns, fs[0]), fs[1..], parent);
    }
  }

  /** A pass over writable results keeps all names in order. */
  lemma {:induction false} PassPlaced(env: Env, root: SearchNode, ns: seq<Node>, fs: seq<Found>)
    requires PlacedList(ns, []) && AllConform(env, RootRule(root), ns)
    requires AllObey(env, RootRule(root), fs) && AllWritable(fs, [])
    ensures PlacedList(InitiateBackup(env, ns, fs, root), [])
  {
    hide HandleNotFound, Placed;
    MergeAllConforms(env, RootRule(root), ns, fs);
    MergeAllPlaced(env, RootRule(root), ns, fs, []);
    var all := MergeAll(env, ns, fs);
    forall i | 0 <= i < |all|
      ensures Placed(HandleNotFound(env, all[i], Some(root), root.policy), [])
      ensures HandleNotFound(env, all[i], Some(root), root.policy).path == all[i].path
    {
      NotFoundPlaced(env, RootRule(root), all[i], []);
    }
  }

  // ----- finishing, writing, loading -----

  lemma {:induction false} AlikePlaced(n: Node, r: Node, parent: Bytes)
    requires Alike(n, r) && Placed(n, parent)
    ensures Placed(r, parent) && r.path == n.path
    decreases n
  {
    hide Split;
    forall i | 0 <= i < |n.history| ensures FitsState(r.history[i].state) {
      assert AlikePoint(n.history[i], r.history[i]) && FitsState(n.history[i].state);
    }
    forall i | 0 <= i < |n.subs| ensures Placed(r.subs[i], n.path) && r.subs[i].path == n.subs[i].path {
      AlikePlaced(n.subs[i], r.subs[i], n.path);
    }
  }

  lemma {:induction false} AllAlikePlaced(ns: seq<Node>, rs: seq<Node>, parent: Bytes)
    requires AllAlike(ns, rs) && PlacedList(ns, parent)
    ensures PlacedList(rs, parent)
  {
    forall i | 0 <= i < |ns| ensures Placed(rs[i], parent) && rs[i].path == ns[i].path { AlikePlaced(ns[i], rs[i], parent); }
  }

  lemma {:induction false} NormPathsFrom(ns: seq<Node>, ids: Ids, k: nat)
    requires k < |NormNodes(ns, ids)|
    ensures exists i :: 0 <= i < |ns| && ns[i].path == NormNodes(ns, ids)[k].path
    decreases |ns|
  {
    var rest := NormNodes(ns[1..], ids);
    if k < |rest| {
      NormPathsFrom(ns[1..], ids, k);
      var i :| 0 <= i < |ns[1..]| && ns[1..][i].path == rest[k].path;
      assert ns[i + 1].path == rest[k].path;
    } else {
      assert ns[0].path == NormNodes(ns, ids)[k].path;
    }
  }

  lemma {:induction false} NormPlaced(ns: seq<Node>, ids: Ids, parent: Bytes)
    requires PlacedList(ns, parent)
    ensures PlacedList(NormNodes(ns, ids), parent)
    decreases ns
  {
    hide Split;
    if ns != [] {
      var n, rest := ns[0], NormNodes(ns[1..], ids);
      NormPlaced(ns[1..], ids, parent);
      NormPlaced(n.subs, ids, n.path);
      assert Placed(n, parent);
      var r := NormNode(n, ids);
      forall i | 0 <= i < |n.history| ensures FitsState(r.history[i].state) { assert FitsState(n.history[i].state); }
      forall k | 0 <= k < |rest| ensures rest[k].path != n.path {
        NormPathsFrom(ns[1..], ids, k);
        var i :| 0 <= i < |ns[1..]| && ns[1..][i].path == rest[k].path;
        assert ns[i + 1].path == rest[k].path;
      }
    }
  }

  /** Lists and histories that a 64-bit count can describe. */
  predicate Small(n: Node)
    decreases n
  {
    |n.history| <= SIZE_MAX && |n.subs| <= SIZE_MAX && forall i :: 0 <= i < |n.subs| ==> Small(n.subs[i])
  }

  predicate SmallList(ns: seq<Node>) { |ns| <= SIZE_MAX && forall i :: 0 <= i < |ns| ==> Small(ns[i]) }

  lemma {:induction false} PlacedFits(ns: seq<Node>, parent: Bytes)
    requires PlacedList(ns, parent) && SmallList(ns)
    ensures FitsNodes(ns, parent, Ids(0, []), 1)
    decreases ns
  {
    hide Split;
    forall i | 0 <= i < |ns| ensures FitsNode(ns[i], parent, Ids(0, []), 1) {
      assert Placed(ns[i], parent) && Small(ns[i]);
      PlacedFits(ns[i].subs, ns[i].path);
    }
  }

  // ----- whole runs -----

  /** What holds between any two runs, names included. The program never extends the config history. */
  ghost predicate Orderly(env: Env, root: SearchNode, s: Repo) {
    Sound(env, root, s) && PlacedList(s.paths, []) && s.config == []
  }

  ghost predicate WritableRun(env: Env, root: SearchNode, run: Run) {
    ProperRun(env, root, run) && AllWritable(run.found, [])
  }

  /** Every file can be stored, and no count exceeds 64 bits. */
  ghost predicate Feasible(env: Env, root: SearchNode, s: Repo, run: Run) {
    && FinishList(env, run.files, s.blobs, Searched(env, root, s, run)).Some?
    && CountAfter(env, root, s, run, Total) <= SIZE_MAX && |s.times| < SIZE_MAX
    && SmallList(FinishList(env, run.files, s.blobs, Searched(env, root, s, run)).value.1)
  }

  lemma {:induction false} WrittenPlaced(env: Env, root: SearchNode, s: Repo, run: Run)
    requires Orderly(env, root, s) && WritableRun(env, root, run)
    requires FinishList(env, run.files, s.blobs, Searched(env, root, s, run)).Some?
    ensures PlacedList(FinishList(env, run.files, s.blobs, Searched(env, root, s, run)).value.1, [])
  {
    hide PlacedList, FinishList, InitiateBackup, StoreOk;
    PassPlaced(env, root, s.paths, run.found);
    RunWrites(env, root, s, run);
    var ns := FinishList(env, run.files, s.blobs, Searched(env, root, s, run)).value.1;
    AllAlikePlaced(Searched(env, root, s, run), ns, []);
  }

  /** Whatever a feasible run leaves can be written to the metadata file and loaded again. */
  lemma {:induction false} FeasibleCompletes(env: Env, root: SearchNode, s: Repo, run: Run)
    requires Orderly(env, root, s) && WritableRun(env, root, run) && Feasible(env, root, s, run)
    ensures Completes(env, root, s, run)
  {
    hide PlacedList, SmallList, FinishList, FitsNodes;
    WrittenPlaced(env, root, s, run);
    PlacedFits(FinishList(env, run.files, s.blobs, Searched(env, root, s, run)).value.1, []);
  }

  /** Names stay in order from run to run. */
  lemma {:induction false} RunKeepsOrder(env: Env, root: SearchNode, s: Repo, run: Run)
    requires Orderly(env, root, s) && WritableRun(env, root, run) && Feasible(env, root, s, run)
    ensures Next(env, root, s, run).Some? && Orderly(env, root, Next(env, root, s, run).value)
  {
    hide PlacedList, SmallList, FinishList, FitsNodes, Next, Sound;
    FeasibleCompletes(env, root, s, run);
    assert Sound(env, root, s) && ProperRun(env, root, run);
    RunKeepsSound(env, root, s, run);
    NextIs(env, root, s, run);
    WrittenPlaced(env, root, s, run);
    NormPlaced(FinishList(env, run.files, s.blobs, Searched(env, root, s, run)).value.1, NewIds(LedgerAfter(env, root, s, run)), []);
  }

  // ----- what restoring relies on -----

  lemma {:induction false} PlacedIsChild(path: Bytes, policy: Policy, h: seq<Point>, parent: Bytes)
    requires PlacedSelf(path, policy, h, parent)
    ensures FileSystem.IsChild(parent, path)
  {
    hide Split;
  }

  lemma {:induction false} PlacedIsNamed(n: Node, parent: Bytes)
    requires Placed(n, parent)
    ensures Restore.Named(n) && FileSystem.IsChild(parent, n.path)
    decreases n
  {
    hide PlacedSelf;
    PlacedIsChild(n.path, n.policy, n.history, parent);
    forall i | 0 <= i < |n.subs| ensures FileSystem.IsChild(n.path, n.subs[i].path) && Restore.Named(n.subs[i]) {
      PlacedIsNamed(n.subs[i], n.path);
    }
  }

  lemma {:induction false} FreshIsIdle(n: Node)
    requires Fresh(n)
    ensures Restore.Idle(n)
    decreases n
  {
    forall i | 0 <= i < |n.subs| ensures Restore.Idle(n.subs[i]) { FreshIsIdle(n.subs[i]); }
  }

  /** Metadata as it is loaded between two runs is ready to be restored. */
  lemma {:induction false} OrderlyIsRestorable(env: Env, root: SearchNode, s: Repo)
    requires Orderly(env, root, s)
    ensures Restore.NamedList(s.paths, []) && forall i :: 0 <= i < |s.paths| ==> Restore.Idle(s.paths[i])
  {
    hide StoreOk;
    forall i | 0 <= i < |s.paths|
      ensures FileSystem.IsChild([], s.paths[i].path) && Restore.Named(s.paths[i]) && Restore.Idle(s.paths[i])
    {
      PlacedIsNamed(s.paths[i], []);
      assert History.Untouched(s.paths[i]);
      FreshIsIdle(s.paths[i]);
    }
  }
}
