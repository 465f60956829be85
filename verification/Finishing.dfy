/** What the second half of a backup keeps: finishing fills in hashes and slots and leaves the rest
    of the tree as it is; and every hash it finds already computed belongs to the file it stores. */
module Finishing {
  import opened Data
  import opened Str
  import opened Metadata
  import opened Backup
  import opened BackupFrame
  import opened RefCounts
  import opened RefCountsExact
  import opened History
  import opened Wiping
  import opened FixedConfig
  import opened BlobStore

  // ----- same tree up to hashes and slots -----

  predicate AlikePoint(p: Point, q: Point) {
    && p.backup == q.backup
    && if p.state.RegularFile? && q.state.RegularFile? then
         q.state == p.state.(info := p.state.info.(hash := q.state.info.hash, slot := q.state.info.slot))
       else q.state == p.state
  }

  predicate Alike(n: Node, r: Node)
    decreases n
  {
    && r.path == n.path && r.hint == n.hint && r.policy == n.policy
    && |r.history| == |n.history| && (forall i :: 0 <= i < |n.history| ==> AlikePoint(n.history[i], r.history[i]))
    && |r.subs| == |n.subs| && (forall i :: 0 <= i < |n.subs| ==> Alike(n.subs[i], r.subs[i]))
  }

  predicate AllAlike(ns: seq<Node>, rs: seq<Node>) {
    |rs| == |ns| && forall i :: 0 <= i < |ns| ==> Alike(ns[i], rs[i])
  }

  lemma {:induction false} FinishedIsAlike(env: Env, fs: map<Bytes, Entry>, blobs: Blobs, n: Node, r: Node)
    requires Finished(env, fs, blobs, n, r)
    ensures Alike(n, r)
    decreases n
  {
    hide Resolves;
    forall i | 0 <= i < |n.subs| ensures Alike(n.subs[i], r.subs[i]) { FinishedIsAlike(env, fs, blobs, n.subs[i], r.subs[i]); }
    if NeedsFinish(n) {
      var w := WithInfo(n, n.history[0].state.info.(hash := r.history[0].state.info.hash, slot := r.history[0].state.info.slot));
      assert w.history == r.history && w.history[1..] == n.history[1..];
      assert forall i :: 1 <= i < |n.history| ==> w.history[i] == n.history[i];
    } else {
      assert r.(subs := n.subs).history == r.history;
      assert n.history == r.history;
    }
  }

  lemma {:induction false} AlikeCount(h: seq<Point>, k: seq<Point>, b: BackupRef)
    requires |h| == |k| && forall i :: 0 <= i < |h| ==> AlikePoint(h[i], k[i])
    ensures CountRef(h, b) == CountRef(k, b)
  {
    if h != [] { AlikeCount(h[1..], k[1..], b); }
  }

  lemma {:induction false} AlikeTally(ns: seq<Node>, rs: seq<Node>, c: Counter)
    requires AllAlike(ns, rs)
    ensures TallyAll(rs, c) == TallyAll(ns, c)
    decreases ns
  {
    if ns != [] {
      assert Alike(ns[0], rs[0]);
      if c.Refs? { AlikeCount(ns[0].history, rs[0].history, c.backup); }
      AlikeTally(ns[0].subs, rs[0].subs, c);
      AlikeTally(ns[1..], rs[1..], c);
    }
  }

  lemma {:induction false} AlikeEmitted(ns: seq<Node>, rs: seq<Node>)
    requires AllAlike(ns, rs)
    ensures Emitted(rs) == Emitted(ns)
    decreases ns
  {
    if ns != [] {
      assert Alike(ns[0], rs[0]);
      AlikeEmitted(ns[0].subs, rs[0].subs);
      AlikeEmitted(ns[1..], rs[1..]);
    }
  }

  lemma {:induction false} AlikeHistory(policy: Policy, h: seq<Point>, k: seq<Point>)
    requires |h| == |k| && (forall i :: 0 <= i < |h| ==> AlikePoint(h[i], k[i])) && HistoryOk(policy, h)
    ensures HistoryOk(policy, k)
  {
    forall i | 0 <= i < |h| ensures k[i].state.NonExisting? == h[i].state.NonExisting? && k[i].backup == h[i].backup {
      assert AlikePoint(h[i], k[i]);
    }
  }

  lemma {:induction false} AlikeKeeps(env: Env, rule: Rule, n: Node, r: Node)
    requires Alike(n, r) && Disciplined(n) && Shaped(n) && Plain(n) && Conforms(env, rule, n)
    ensures Disciplined(r) && Shaped(r) && Plain(r) && Conforms(env, rule, r)
    decreases n
  {
    if !Wiped(n) { AlikeHistory(n.policy, n.history, r.history); }
    if n.history != [] { assert AlikePoint(n.history[0], r.history[0]); }
    var inner := RuleFor(env, rule, n.path).value;
    forall i | 0 <= i < |n.subs|
      ensures Disciplined(r.subs[i]) && Shaped(r.subs[i]) && Plain(r.subs[i]) && Conforms(env, inner, r.subs[i])
      ensures Wiped(r.subs[i]) == Wiped(n.subs[i])
    {
      AlikeKeeps(env, inner, n.subs[i], r.subs[i]);
    }
  }

  // ----- identities that were computed early -----

  /** The files do not change between the search and their copying. */
  predicate Steady(f: Found, files: map<Bytes, Entry>)
    decreases f
  {
    && (f.entry.File? ==> f.path in files && files[f.path] == f.entry)
    && forall i :: 0 <= i < |f.children| ==> Steady(f.children[i], files)
  }

  predicate AllSteady(fs: seq<Found>, files: map<Bytes, Entry>) { forall i :: 0 <= i < |fs| ==> Steady(fs[i], files) }

  ghost predicate AllHashed(env: Env, ns: seq<Node>, files: map<Bytes, Entry>) {
    forall i :: 0 <= i < |ns| ==> AllFreshOk(env, ns[i], files)
  }

  lemma {:induction false} FreshIsHashed(env: Env, n: Node, files: map<Bytes, Entry>)
    requires Fresh(n)
    ensures AllFreshOk(env, n, files)
    decreases n
  {
    forall i | 0 <= i < |n.subs| ensures AllFreshOk(env, n.subs[i], files) { FreshIsHashed(env, n.subs[i], files); }
  }

  lemma {:induction false} WipeHashed(env: Env, n: Node, files: map<Bytes, Entry>)
    ensures AllFreshOk(env, WipeRec(n), files)
    decreases n
  {
    forall i | 0 <= i < |n.subs| ensures AllFreshOk(env, WipeRec(n.subs[i]), files) { WipeHashed(env, n.subs[i], files); }
  }

  lemma {:induction false} MarkHashed(env: Env, n: Node, extend: bool, files: map<Bytes, Entry>)
    requires AllFreshOk(env, n, files)
    ensures AllFreshOk(env, MarkRemovedRec(n, extend), files)
    decreases n
  {
    if !Wiped(n) {
      forall i | 0 <= i < |n.subs| ensures AllFreshOk(env, MarkRemovedRec(n.subs[i], ExtendBelow(n, extend)), files) {
        MarkHashed(env, n.subs[i], ExtendBelow(n, extend), files);
      }
    }
  }

  lemma {:induction false} PolicyHashed(env: Env, n: Node, policy: Policy, files: map<Bytes, Entry>)
    requires AllHashed(env, n.subs, files)
    ensures AllHashed(env, HandlePolicyChanges(n, policy).subs, files)
  {
    forall i | 0 <= i < |n.subs| ensures AllFreshOk(env, WipeRec(n.subs[i]), files) { WipeHashed(env, n.subs[i], files); }
  }

  lemma {:induction false} NotFoundHashed(env: Env, n: Node, parent: Option<SearchNode>, policy: Policy, files: map<Bytes, Entry>)
    requires AllFreshOk(env, n, files)
    ensures AllFreshOk(env, HandleNotFound(env, n, parent, policy), files)
  {
    WipeHashed(env, n, files);
    var p := SupposedPolicy(env, n.path, parent, policy);
    if n.hint == NoHint && p.Some? {
      PolicyHashed(env, n, p.value, files);
      var n1 := HandlePolicyChanges(n, p.value);
      WipeHashed(env, n1, files);
      assert !Has(n1.hint, FreshHash);
      MarkHashed(env, n1, true, files);
    }
  }

  lemma {:induction false} CompleteHashed(env: Env, n: Node, f: Found, files: map<Bytes, Entry>)
    requires AllFreshOk(env, n, files)
    ensures AllFreshOk(env, CompleteNode(env, n, f), files)
  {
    hide HandleNotFound;
    forall i | 0 <= i < |n.subs|
      ensures AllFreshOk(env, WipeRec(n.subs[i]), files)
      ensures forall b :: AllFreshOk(env, MarkRemovedRec(n.subs[i], b), files)
      ensures AllFreshOk(env, HandleNotFound(env, n.subs[i], f.node, f.policy), files)
    {
      WipeHashed(env, n.subs[i], files);
      forall b { MarkHashed(env, n.subs[i], b, files); }
      NotFoundHashed(env, n.subs[i], f.node, f.policy, files);
    }
    assert AllHashed(env, SettleSubnodes(env, n, f), files);
  }

  /** The only place that raises the flag stores the identity of the content it has just read. */
  lemma {:induction false} ChangesHashed(env: Env, h: Hint, s: PathState, f: Found)
    requires !Has(h, FreshHash) && Has(HandleNodeChanges(env, h, s, f).0, FreshHash)
    ensures f.entry.File?
    ensures var t := HandleNodeChanges(env, h, s, f).1;
      t.RegularFile? && t.info.size == |f.entry.content| && t.info.hash[..IdentityLength(t.info.size)] == Identity(env, f.entry.content)
  {
  }

  lemma {:induction false} ReachedHashed(env: Env, prior: Option<Node>, f: Found, files: map<Bytes, Entry>)
    requires Steady(f, files)
    requires prior.Some? ==> prior.value.path == f.path && AllHashed(env, prior.value.subs, files)
    requires prior.Some? ==> !Has(prior.value.hint, FreshHash)
    ensures AllFreshOk(env, Reached(env, prior, f), files)
  {
    hide Identity, HandleNodeChanges, PopRemoved, WipesSubnodes;
    if prior.Some? {
      PolicyHashed(env, prior.value, f.policy, files);
      var n1 := HandlePolicyChanges(prior.value, f.policy);
      if n1.history != [] && Has(HandleNodeChanges(env, n1.hint, n1.history[0].state, f).0, FreshHash) {
        ChangesHashed(env, n1.hint, n1.history[0].state, f);
      }
    }
  }

  lemma {:induction false} MergeOneHashed(env: Env, ns: seq<Node>, f: Found, files: map<Bytes, Entry>)
    requires AllHashed(env, ns, files) && Steady(f, files) && DistinctPaths(f.children)
    requires Lookup(ns, f.path).Some? ==> Fresh(Lookup(ns, f.path).value)
    requires UnblockedOne(ns, f)
    ensures AllHashed(env, MergeOne(env, ns, f), files)
    decreases f
  {
    hide HandleFoundNode, CompleteNode;
    if !f.entry.Other? {
      var prior := Lookup(ns, f.path);
      var n := Reached(env, prior, f);
      ReachedHashed(env, prior, f, files);
      if f.entry.Dir? {
        if prior.None? {
          assert n.subs == [];
          NoneKnownInEmpty(f.children);
          UnblockedUnknown([], f.children);
          MergeAllHashed(env, n.subs, f.children, files);
        } else {
          InsideHashed(env, prior.value, f, files);
        }
      }
      CompleteHashed(env, MergeInside(env, n, f), f, files);
    }
  }

  /** Below a found directory the listing meets fresh nodes, or none at all if they were wiped. */
  lemma {:induction false} InsideHashed(env: Env, n: Node, f: Found, files: map<Bytes, Entry>)
    requires Fresh(n) && f.entry.Dir? && Steady(f, files) && DistinctPaths(f.children) && Unblocked(n, f)
    requires AllHashed(env, HandleFoundNode(env, n, f).subs, files)
    ensures AllHashed(env, MergeAll(env, HandleFoundNode(env, n, f).subs, f.children), files)
    decreases f, 0
  {
    var r := HandleFoundNode(env, n, f);
    if WipesSubnodes(n, f.policy) {
      assert r.subs == WipeAll(n.subs);
      forall i | 0 <= i < |n.subs| ensures r.subs[i].path == n.subs[i].path { WipeKeepsPath(n.subs[i]); }
      NoneKnownAgrees(r.subs, n.subs, f.children);
      NoneKnownMeans(r.subs, f.children);
      UnblockedUnknown(r.subs, f.children);
    } else {
      assert r.subs == n.subs;
    }
    MergeAllHashed(env, r.subs, f.children, files);
  }

  lemma {:induction false} NoneKnownMeans(ns: seq<Node>, fs: seq<Found>)
    requires NoneKnown(ns, fs)
    ensures forall i :: 0 <= i < |fs| ==> fs[i].entry.Other? || Lookup(ns, fs[i].path).None?
  {
    if fs != [] {
      NoneKnownMeans(ns, fs[1..]);
      assert forall i :: 1 <= i < |fs| ==> fs[i] == fs[1..][i - 1];
    }
  }

  lemma {:induction false} UnblockedUnknown(ns: seq<Node>, fs: seq<Found>)
    requires NoneKnown(ns, fs)
    ensures UnblockedAll(ns, fs)
  {
    if fs != [] { UnblockedUnknown(ns, fs[1..]); }
  }

  ghost predicate FreshOrUnknown(ns: seq<Node>, fs: seq<Found>) {
    forall i :: 0 <= i < |fs| ==> fs[i].entry.Other? || Lookup(ns, fs[i].path).None? || Fresh(Lookup(ns, fs[i].path).value)
  }

  lemma {:induction false} MergeAllHashed(env: Env, ns: seq<Node>, fs: seq<Found>, files: map<Bytes, Entry>)
    requires AllHashed(env, ns, files) && AllSteady(fs, files) && DistinctPaths(fs)
    requires FreshOrUnknown(ns, fs) && UnblockedAll(ns, fs)
    ensures AllHashed(env, MergeAll(env, ns, fs), files)
    decreases fs
  {
    hide MergeOne;
    if fs != [] {
      if !fs[0].entry.Other? { MergeOneHashed(env, ns, fs[0], files); } else { SkipOther(env, ns, fs[0]); }
      RestLookups(env, ns, fs);
      SameLookupsAgree(MergeOne(env, ns, fs[0]), ns, fs[1..]);
      MergeAllHashed(env, MergeOne(env, ns, fs[0]), fs[1..], files);
    }
  }

  lemma {:induction false} SkipOther(env: Env, ns: seq<Node>, f: Found)
    requires f.entry.Other?
    ensures MergeOne(env, ns, f) == ns
  {
  }

  /** After a pass over a loaded tree every flag that says "hash already computed" is right. */
  lemma {:induction false} PassHashed(env: Env, ns: seq<Node>, fs: seq<Found>, root: SearchNode, files: map<Bytes, Entry>)
    requires (forall i :: 0 <= i < |ns| ==> Fresh(ns[i])) && AllSteady(fs, files) && DistinctPaths(fs) && UnblockedAll(ns, fs)
    ensures AllHashed(env, InitiateBackup(env, ns, fs, root), files)
  {
    hide HandleNotFound, AllFreshOk;
    forall i | 0 <= i < |ns| ensures AllFreshOk(env, ns[i], files) { FreshIsHashed(env, ns[i], files); }
    MergeAllHashed(env, ns, fs, files);
    var all := MergeAll(env, ns, fs);
    forall i | 0 <= i < |all| ensures AllFreshOk(env, HandleNotFound(env, all[i], Some(root), root.policy), files) {
      NotFoundHashed(env, all[i], Some(root), root.policy, files);
    }
  }
}
