/** Every stored file that live metadata refers to is in the repository: kept by a pass, by
    finishing it, and by writing and loading the metadata. */
module Stock {
  import opened Data
  import opened Str
  import opened Metadata
  import opened Backup
  import opened BackupFrame
  import opened RefCountsExact
  import opened History
  import opened Wiping
  import opened FixedConfig
  import opened RepoPath
  import opened BlobStore
  import opened Codec
  import opened GarbageCollector

  predicate InStock(blobs: Blobs, s: PathState) { Stored(s) ==> PathOf(s.info) in blobs }

  /** Whether a history's files are in the repository; the newest one may still be pending. */
  predicate StockedHistory(blobs: Blobs, h: seq<Point>, pending: bool) {
    forall i :: 0 <= i < |h| && !(i == 0 && pending) ==> InStock(blobs, h[i].state)
  }

  predicate Stocked(blobs: Blobs, n: Node, pending: bool)
    decreases n
  {
    !Wiped(n) ==>
      && StockedHistory(blobs, n.history, pending && NeedsFinish(n))
      && forall i :: 0 <= i < |n.subs| ==> Stocked(blobs, n.subs[i], pending)
  }

  predicate AllStocked(blobs: Blobs, ns: seq<Node>, pending: bool) {
    forall i :: 0 <= i < |ns| ==> Stocked(blobs, ns[i], pending)
  }

  /** The writer's view: no path the written metadata refers to is missing. */
  lemma {:induction false} StockedIsReferenced(blobs: Blobs, ns: seq<Node>)
    requires AllStocked(blobs, ns, false)
    ensures ReferencedPaths(ns) <= blobs.Keys
    decreases ns
  {
    hide PathOf;
    if ns != [] {
      assert Stocked(blobs, ns[0], false);
      if !Wiped(ns[0]) {
        StockedPoints(blobs, ns[0].history);
        StockedIsReferenced(blobs, ns[0].subs);
      }
      StockedIsReferenced(blobs, ns[1..]);
    }
  }

  lemma {:induction false} StockedPoints(blobs: Blobs, h: seq<Point>)
    requires StockedHistory(blobs, h, false)
    ensures PointPaths(h) <= blobs.Keys
  {
    hide PathOf;
    if h != [] {
      assert InStock(blobs, h[0].state);
      StockedPoints(blobs, h[1..]);
    }
  }

  lemma {:induction false} PointIsReferenced(h: seq<Point>, i: nat)
    requires i < |h| && Stored(h[i].state)
    ensures PathOf(h[i].state.info) in PointPaths(h)
  {
    if i > 0 { PointIsReferenced(h[1..], i - 1); }
  }

  /** Dropping everything unreferenced keeps the rest in stock. */
  lemma {:induction false} StillStocked(a: Blobs, b: Blobs, ns: seq<Node>)
    requires AllStocked(a, ns, false) && forall p :: p in ReferencedPaths(ns) && p in a ==> p in b
    ensures AllStocked(b, ns, false)
    decreases ns
  {
    hide PathOf;
    if ns != [] {
      assert Stocked(a, ns[0], false);
      if !Wiped(ns[0]) {
        forall i | 0 <= i < |ns[0].history| ensures InStock(b, ns[0].history[i].state) {
          assert InStock(a, ns[0].history[i].state);
          if Stored(ns[0].history[i].state) { PointIsReferenced(ns[0].history, i); }
        }
        StillStocked(a, b, ns[0].subs);
      }
      StillStocked(a, b, ns[1..]);
      assert forall i :: 1 <= i < |ns| ==> ns[i] == ns[1..][i - 1];
    }
  }

  // ----- loaded trees and single operations -----

  lemma {:induction false} LoadedStock(blobs: Blobs, n: Node)
    requires Fresh(n) && Stocked(blobs, n, false)
    ensures Stocked(blobs, n, true)
    decreases n
  {
    forall i | 0 <= i < |n.subs| ensures Stocked(blobs, n.subs[i], true) { LoadedStock(blobs, n.subs[i]); }
  }

  lemma {:induction false} MarkStocked(blobs: Blobs, n: Node, extend: bool, pending: bool)
    requires Stocked(blobs, n, pending) && (pending ==> Fresh(n))
    ensures Stocked(blobs, MarkRemovedRec(n, extend), pending)
    decreases n
  {
    hide PathOf;
    if !Wiped(n) {
      forall i | 0 <= i < |n.subs| ensures Stocked(blobs, MarkRemovedRec(n.subs[i], ExtendBelow(n, extend)), pending) {
        MarkStocked(blobs, n.subs[i], ExtendBelow(n, extend), pending);
      }
      assert StockedHistory(blobs, n.history, pending && NeedsFinish(n));
      assert MarkRemovedSelf(n, extend).history == n.history
          || MarkRemovedSelf(n, extend).history == [Point(Current, NonExisting)] + n.history;
      assert StockedHistory(blobs, MarkRemovedSelf(n, extend).history, false);
    }
  }

  lemma {:induction false} NotFoundStocked(env: Env, rule: Rule, blobs: Blobs, n: Node)
    requires Stocked(blobs, n, true) && Conforms(env, rule, n) && (n.hint == NoHint ==> Fresh(n))
    ensures Stocked(blobs, HandleNotFound(env, n, rule.node, rule.policy), true)
  {
    hide PathOf, RuleFor, SupposedPolicy;
    if n.hint == NoHint {
      SupposedIsRule(env, rule, n);
      MarkStocked(blobs, n, true, true);
      assert HandlePolicyChanges(n, n.policy) == n;
    }
  }

  predicate StoresContent(h: Hint) {
    IsKind(h, Added) || IsKind(h, SymlinkToRegular) || IsKind(h, DirectoryToRegular) || Has(h, ContentChanged)
  }

  /** A changed state refers to a stored file only if it is the old one, or will be stored. */
  lemma {:induction false} ChangesStocked(env: Env, blobs: Blobs, h: Hint, s: PathState, f: Found)
    requires h == NoHint && InStock(blobs, s) && !s.NonExisting?
    ensures var (h', s') := HandleNodeChanges(env, h, s, f);
      InStock(blobs, s') || (s'.RegularFile? && s'.info.size > 0 && StoresContent(h'))
  {
    hide PathOf, Identity;
    if s.RegularFile? && f.entry.File? {
      var owner := FlagIf(h, s.uid != f.entry.uid || s.gid != f.entry.gid, OwnerChanged);
      FileChangesStocked(env, owner, s.info, f.entry);
      SamePath(s.info, ApplyFileChanges(env, owner, s.info, f.entry).1);
    }
  }

  lemma {:induction false} SamePath(i: FileInfo, j: FileInfo)
    ensures i.hash == j.hash && i.size == j.size && i.slot == j.slot ==> PathOf(i) == PathOf(j)
  {
  }

  lemma {:induction false} FileChangesStocked(env: Env, h: Hint, i: FileInfo, e: Entry)
    requires e.File? && h.core.Flags?
    ensures var (h', i') := ApplyFileChanges(env, h, i, e);
      Has(h', ContentChanged) || (i'.hash == i.hash && i'.size == i.size && i'.slot == i.slot)
  {
  }

  lemma {:induction false} ReachedStocked(env: Env, rule: Rule, blobs: Blobs, prior: Option<Node>, f: Found)
    requires Obeys(env, rule, f) && !f.entry.Other?
    requires prior.Some? ==> Conforms(env, rule, prior.value) && prior.value.path == f.path
    requires prior.Some? ==> Untouched(prior.value) && Stocked(blobs, prior.value, true)
    ensures Stocked(blobs, Reached(env, prior, f), true)
  {
    hide PathOf, HandleNodeChanges, RuleFor;
    if prior.Some? {
      var n := prior.value;
      UntouchedSubs(n);
      assert HandlePolicyChanges(n, f.policy) == n;
      var r := HandleFoundNode(env, n, f);
      var (h, s) := HandleNodeChanges(env, n.hint, n.history[0].state, f);
      assert InStock(blobs, n.history[0].state);
      if !n.history[0].state.NonExisting? { ChangesStocked(env, blobs, n.hint, n.history[0].state, f); }
      FoundHistory(env, n, f);
      assert !Wiped(r) ==> StockedHistory(blobs, r.history, NeedsFinish(r));
    }
  }

  /** The history of a found node: the old one with its head rewritten, or one more point. */
  lemma {:induction false} FoundHistory(env: Env, n: Node, f: Found)
    requires n.history != [] && n.policy == f.policy
    ensures var r := HandleFoundNode(env, n, f);
      var (h, s) := HandleNodeChanges(env, n.hint, n.history[0].state, f);
      && r.subs == n.subs
      && ((r.history == n.history && f.policy.Track? && r.hint == h && h.core == NoFlags && !n.history[0].state.NonExisting?)
      || (exists b :: r.history == [Point(b, s)] + n.history[1..] && r.hint == h && !f.policy.Track?)
      || (r.history == [Point(Current, s)] + n.history && r.hint == h && f.policy.Track? && !n.history[0].state.NonExisting?)
      || (r.history == [Point(Current, StateOf(f.entry))] + n.history && r.hint == SetKind(n.hint, Added) && f.policy.Track? && n.history[0].state.NonExisting?))
  {
    hide HandleNodeChanges;
    assert HandlePolicyChanges(n, f.policy) == n;
  }

  lemma {:induction false} CompleteStocked(env: Env, rule: Rule, blobs: Blobs, n: Node, f: Found)
    requires Conforms(env, rule, n) && n.path == f.path && Obeys(env, rule, f) && Stocked(blobs, n, true)
    requires forall i :: 0 <= i < |n.subs| && n.subs[i].hint == NoHint ==> Fresh(n.subs[i])
    requires !f.entry.Dir? ==> forall i :: 0 <= i < |n.subs| ==> Fresh(n.subs[i])
    requires f.entry.Dir? ==> !FromDirectory(n.hint) && !(f.policy.Track? && HeadState(n).RegularFile?)
    ensures Stocked(blobs, CompleteNode(env, n, f), true)
  {
    hide PathOf, HandleNotFound;
    var r := RuleFor(env, rule, n.path).value;
    if !Wiped(n) {
      forall i | 0 <= i < |n.subs|
        ensures Stocked(blobs, WipeRec(n.subs[i]), true)
        ensures !f.entry.Dir? ==> forall b :: Stocked(blobs, MarkRemovedRec(n.subs[i], b), true)
        ensures Stocked(blobs, HandleNotFound(env, n.subs[i], r.node, r.policy), true)
      {
        if !f.entry.Dir? { forall b { MarkStocked(blobs, n.subs[i], b, true); } }
        NotFoundStocked(env, r, blobs, n.subs[i]);
      }
      assert AllStocked(blobs, SettleSubnodes(env, n, f), true);
    }
  }

  /** What a listing does to siblings that are untouched or already handled. */
  ghost predicate AllSettled(ns: seq<Node>) { forall i :: 0 <= i < |ns| && ns[i].hint == NoHint ==> Fresh(ns[i]) }

  lemma {:induction false} MergeOneStocked(env: Env, rule: Rule, blobs: Blobs, ns: seq<Node>, f: Found)
    requires AllConform(env, rule, ns) && Obeys(env, rule, f) && AllStocked(blobs, ns, true) && Reachable(ns, [f])
    requires DistinctPaths(f.children) && AllSettled(ns)
    ensures AllStocked(blobs, MergeOne(env, ns, f), true) && AllSettled(MergeOne(env, ns, f))
    decreases f
  {
    hide HandleFoundNode, CompleteNode, Stocked, Conforms, Obeys, Untouched, MergeInside;
    if !f.entry.Other? {
      var prior := Lookup(ns, f.path);
      assert [f][0] == f;
      var n := Reached(env, prior, f);
      ReachedLive(env, prior, f);
      InsideStocked(env, rule, blobs, prior, f);
      var inside := MergeInside(env, n, f);
      CompleteStocked(env, rule, blobs, inside, f);
      CompletedHint(env, inside, f);
    }
  }

  /** Everything that completing a found node relies on. */
  lemma {:induction false} InsideStocked(env: Env, rule: Rule, blobs: Blobs, prior: Option<Node>, f: Found)
    requires Prior(env, rule, prior, f) && DistinctPaths(f.children)
    requires prior.Some? ==> Stocked(blobs, prior.value, true)
    ensures var n := MergeInside(env, Reached(env, prior, f), f);
      && Conforms(env, rule, n) && n.path == f.path && Stocked(blobs, n, true)
      && (forall i :: 0 <= i < |n.subs| && n.subs[i].hint == NoHint ==> Fresh(n.subs[i]))
      && (!f.entry.Dir? ==> forall i :: 0 <= i < |n.subs| ==> Fresh(n.subs[i]))
      && (f.entry.Dir? ==> !FromDirectory(n.hint) && !(f.policy.Track? && HeadState(n).RegularFile?))
    decreases f, 0
  {
    hide HandleFoundNode, PathOf, RuleFor;
    var n := Reached(env, prior, f);
    ReachedConforms(env, rule, prior, f);
    ReachedStocked(env, rule, blobs, prior, f);
    ReachedSubs(env, rule, prior, f);
    ReachedLive(env, prior, f);
    if f.entry.Dir? {
      ReachedDirectory(env, prior, f);
      MergeAllConforms(env, Rule(f.node, f.policy), n.subs, f.children);
      MergeAllStocked(env, Rule(f.node, f.policy), blobs, n.subs, f.children);
    }
  }

  /** A known node of a path whose policy stays the same. */
  ghost predicate Prior(env: Env, rule: Rule, n: Option<Node>, f: Found) {
    && Obeys(env, rule, f) && !f.entry.Other?
    && (n.Some? ==> n.value.path == f.path && Untouched(n.value) && Conforms(env, rule, n.value))
  }

  lemma {:induction false} CompletedHint(env: Env, n: Node, f: Found)
    ensures CompleteNode(env, n, f).hint != NoHint
  {
    hide SettleSubnodes;
  }

  lemma {:induction false} ReachedLive(env: Env, prior: Option<Node>, f: Found)
    requires prior.Some? ==> Untouched(prior.value)
    requires !f.entry.Other?
    ensures !Wiped(Reached(env, prior, f))
  {
    hide HandleFoundNode;
    if prior.Some? { FoundOk(env, prior.value, f); }
  }

  lemma {:induction false} ReachedDirectory(env: Env, prior: Option<Node>, f: Found)
    requires f.entry.Dir? && (prior.Some? ==> Untouched(prior.value))
    ensures var n := Reached(env, prior, f); !FromDirectory(n.hint) && !(f.policy.Track? && HeadState(n).RegularFile?)
  {
    hide HandleFoundNode;
    if prior.Some? { FoundOk(env, prior.value, f); }
  }

  lemma {:induction false} MergeAllStocked(env: Env, rule: Rule, blobs: Blobs, ns: seq<Node>, fs: seq<Found>)
    requires AllConform(env, rule, ns) && AllObey(env, rule, fs) && AllStocked(blobs, ns, true) && Reachable(ns, fs)
    requires DistinctPaths(fs) && AllSettled(ns)
    ensures AllStocked(blobs, MergeAll(env, ns, fs), true) && AllSettled(MergeAll(env, ns, fs))
    decreases fs
  {
    hide MergeOne, Stocked;
    if fs != [] {
      assert Reachable(ns, [fs[0]]) by { assert [fs[0]][0] == fs[0]; }
      MergeOneStocked(env, rule, blobs, ns, fs[0]);
      MergeOneConforms(env, rule, ns, fs[0]);
      RestLookups(env, ns, fs);
      MergeAllStocked(env, rule, blobs, MergeOne(env, ns, fs[0]), fs[1..]);
    }
  }

  /** After a pass only contents that are about to be stored may be missing. */
  lemma {:induction false} PassStocked(env: Env, root: SearchNode, blobs: Blobs, ns: seq<Node>, fs: seq<Found>)
    requires AllConform(env, RootRule(root), ns) && AllObey(env, RootRule(root), fs)
    requires AllUntouched(ns) && DistinctPaths(fs) && AllStocked(blobs, ns, false)
    ensures AllStocked(blobs, InitiateBackup(env, ns, fs, root), true)
  {
    hide HandleNotFound, Stocked;
    forall i | 0 <= i < |ns| ensures Stocked(blobs, ns[i], true) { LoadedStock(blobs, ns[i]); }
    MergeAllConforms(env, RootRule(root), ns, fs);
    MergeAllStocked(env, RootRule(root), blobs, ns, fs);
    var all := MergeAll(env, ns, fs);
    forall i | 0 <= i < |all| ensures Stocked(blobs, HandleNotFound(env, all[i], Some(root), root.policy), true) {
      NotFoundStocked(env, RootRule(root), blobs, all[i]);
    }
  }

  /** Once the backup is finished nothing is missing. */
  lemma {:induction false} FinishedStocked(env: Env, files: map<Bytes, Entry>, a: Blobs, b: Blobs, n: Node, r: Node)
    requires Finished(env, files, b, n, r) && Stocked(a, n, true) && Extends(a, b)
    ensures Stocked(b, r, false)
    decreases n
  {
    hide PathOf;
    if !NeedsFinish(n) { assert r.(subs := n.subs) == n; }
    if !Wiped(n) {
      var w := r.(subs := n.subs);
      assert w.history == r.history && w.hint == r.hint;
      forall i | 0 <= i < |r.history| ensures InStock(b, r.history[i].state) {
        if i > 0 || !NeedsFinish(n) { assert InStock(a, n.history[i].state); }
      }
      forall i | 0 <= i < |n.subs| ensures Stocked(b, r.subs[i], false) {
        FinishedStocked(env, files, a, b, n.subs[i], r.subs[i]);
      }
    }
  }

  /** Writing and loading keeps everything in stock. */
  lemma {:induction false} NormStocked(blobs: Blobs, ns: seq<Node>, ids: Ids)
    requires AllStocked(blobs, ns, false)
    ensures AllStocked(blobs, NormNodes(ns, ids), false)
    decreases ns
  {
    hide PathOf;
    if ns != [] {
      NormStocked(blobs, ns[1..], ids);
      if !Wiped(ns[0]) {
        assert Stocked(blobs, ns[0], false);
        NormStocked(blobs, ns[0].subs, ids);
        forall i | 0 <= i < |ns[0].history| ensures InStock(blobs, NormHistory(ns[0].history, ids)[i].state) {
          assert InStock(blobs, ns[0].history[i].state);
        }
      }
    }
  }
}
