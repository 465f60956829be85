/** The condition under which the counters stay right, stated on the inputs of the pass alone,
    and the trace on which they do not. */
module RefCountsExact {
  import opened Data
  import opened Str
  import opened Metadata
  import opened Backup
  import opened BackupFrame
  import opened RefCounts

  /** A tree as the metadata reader leaves it: no hints, only references to past backups,
      histories that start with an existing state. */
  predicate Loaded(n: Node)
    decreases n
  {
    && n.history != [] && !n.history[|n.history| - 1].state.NonExisting?
    && (forall i :: 0 <= i < |n.history| ==> n.history[i].backup.Past?)
    && (forall i :: 0 <= i < |n.subs| ==> Loaded(n.subs[i]))
  }

  predicate Fresh(n: Node)
    decreases n
  {
    n.hint == NoHint && forall i :: 0 <= i < |n.subs| ==> Fresh(n.subs[i])
  }

  /** No found path is a subnode of a node whose policy change wipes its subnodes: the guard at
      src/backup.c:279, evaluated on the loaded tree before the pass starts. */
  predicate Unblocked(n: Node, f: Found)
    decreases f, 0
  {
    f.entry.Dir? ==>
      if WipesSubnodes(n, f.policy) then NoneKnown(n.subs, f.children)
      else UnblockedAll(n.subs, f.children)
  }

  predicate UnblockedAll(ns: seq<Node>, fs: seq<Found>)
    decreases fs
  {
    fs == [] || (UnblockedOne(ns, fs[0]) && UnblockedAll(ns, fs[1..]))
  }

  predicate UnblockedOne(ns: seq<Node>, f: Found)
    decreases f, 1
  {
    f.entry.Other? || Lookup(ns, f.path).None? || Unblocked(Lookup(ns, f.path).value, f)
  }

  predicate NoneKnown(ns: seq<Node>, fs: seq<Found>) {
    fs == [] || ((fs[0].entry.Other? || Lookup(ns, fs[0].path).None?) && NoneKnown(ns, fs[1..]))
  }

  predicate SameLookups(ms: seq<Node>, ns: seq<Node>, fs: seq<Found>) {
    forall i :: 0 <= i < |fs| ==> Lookup(ms, fs[i].path) == Lookup(ns, fs[i].path)
  }

  lemma {:induction false} SameLookupsAgree(ms: seq<Node>, ns: seq<Node>, fs: seq<Found>)
    requires SameLookups(ms, ns, fs)
    ensures UnblockedAll(ms, fs) == UnblockedAll(ns, fs)
    ensures NoneKnown(ms, fs) == NoneKnown(ns, fs)
  {
    if fs != [] {
      assert Lookup(ms, fs[0].path) == Lookup(ns, fs[0].path);
      assert forall i :: 0 <= i < |fs| - 1 ==> fs[1..][i] == fs[i + 1];
      SameLookupsAgree(ms, ns, fs[1..]);
    }
  }

  lemma {:induction false} NoneKnownAgrees(ms: seq<Node>, ns: seq<Node>, fs: seq<Found>)
    requires |ms| == |ns| && forall i :: 0 <= i < |ns| ==> ms[i].path == ns[i].path
    ensures NoneKnown(ms, fs) == NoneKnown(ns, fs)
  {
    if fs != [] {
      IndexOfSamePaths(ms, ns, fs[0].path);
      NoneKnownAgrees(ms, ns, fs[1..]);
    }
  }

  lemma {:induction false} RestLookups(env: Env, ns: seq<Node>, fs: seq<Found>)
    requires fs != [] && DistinctPaths(fs)
    ensures SameLookups(MergeOne(env, ns, fs[0]), ns, fs[1..])
  {
    forall i | 0 <= i < |fs[1..]|
      ensures Lookup(MergeOne(env, ns, fs[0]), fs[1..][i].path) == Lookup(ns, fs[1..][i].path)
    {
      assert fs[1..][i] == fs[i + 1];
      MergeOneLookup(env, ns, fs[0], fs[i + 1].path);
    }
  }

  // ----- the condition decides whether a wiped node is found -----

  predicate AllKnown(ns: seq<Node>, fs: seq<Found>, p: Node -> bool) {
    forall i :: 0 <= i < |fs| && Lookup(ns, fs[i].path).Some? ==> p(Lookup(ns, fs[i].path).value)
  }

  lemma {:induction false} AllKnownRest(env: Env, ns: seq<Node>, fs: seq<Found>, p: Node -> bool)
    requires fs != [] && DistinctPaths(fs) && AllKnown(ns, fs, p)
    ensures AllKnown(MergeOne(env, ns, fs[0]), fs[1..], p)
  {
    RestLookups(env, ns, fs);
  }

  lemma {:induction false} SafeAmongWiped(env: Env, ns: seq<Node>, fs: seq<Found>)
    requires DistinctPaths(fs) && AllKnown(ns, fs, Wiped)
    ensures SafeAll(env, ns, fs) <==> NoneKnown(ns, fs)
    decreases fs
  {
    if fs != [] {
      var f := fs[0];
      var rest := MergeOne(env, ns, f);
      if f.entry.Dir? {
        SafeAmongWiped(env, [], f.children);
        NoneKnownInEmpty(f.children);
      }
      assert SafeOne(env, ns, f) == (f.entry.Other? || Lookup(ns, f.path).None?);
      AllKnownRest(env, ns, fs, Wiped);
      SafeAmongWiped(env, rest, fs[1..]);
      RestLookups(env, ns, fs);
      SameLookupsAgree(rest, ns, fs[1..]);
    }
  }

  lemma {:induction false} NoneKnownInEmpty(fs: seq<Found>)
    ensures NoneKnown([], fs)
  {
    if fs != [] { NoneKnownInEmpty(fs[1..]); }
  }

  lemma {:induction false} SafeIffUnblocked(env: Env, ns: seq<Node>, fs: seq<Found>)
    requires DistinctPaths(fs) && AllKnown(ns, fs, Fresh)
    ensures SafeAll(env, ns, fs) <==> UnblockedAll(ns, fs)
    decreases fs
  {
    if fs != [] {
      var f := fs[0];
      var rest := MergeOne(env, ns, f);
      if f.entry.Dir? {
        if Lookup(ns, f.path).None? {
          SafeAmongWiped(env, [], f.children);
          NoneKnownInEmpty(f.children);
        } else {
          SafeInsideIffUnblocked(env, Lookup(ns, f.path).value, f);
        }
      }
      assert SafeOne(env, ns, f) == UnblockedOne(ns, f);
      AllKnownRest(env, ns, fs, Fresh);
      SafeIffUnblocked(env, rest, fs[1..]);
      RestLookups(env, ns, fs);
      SameLookupsAgree(rest, ns, fs[1..]);
    }
  }

  lemma {:induction false} SafeInsideIffUnblocked(env: Env, n: Node, f: Found)
    requires Fresh(n) && f.entry.Dir? && DistinctPaths(f.children)
    ensures SafeInside(env, HandleFoundNode(env, n, f), f) <==> Unblocked(n, f)
    decreases f, 0
  {
    var r := HandleFoundNode(env, n, f);
    if WipesSubnodes(n, f.policy) {
      assert r.subs == WipeAll(n.subs);
      forall i | 0 <= i < |n.subs| ensures r.subs[i].path == n.subs[i].path && Wiped(r.subs[i]) {
        WipeKeepsPath(n.subs[i]);
      }
      NoneKnownAgrees(r.subs, n.subs, f.children);
      SafeAmongWiped(env, r.subs, f.children);
    } else {
      assert r.subs == n.subs;
      SafeIffUnblocked(env, n.subs, f.children);
    }
  }

  // ----- the condition decides whether the counters stay right -----

  /** How far a counter is off after merging one result, compared to a recount. */
  function Gap(env: Env, ns: seq<Node>, f: Found, c: Counter): int {
    MergeOneDelta(env, ns, f, c) - (TallyAll(MergeOne(env, ns, f), c) - TallyAll(ns, c))
  }

  function GapInside(env: Env, n: Node, f: Found, c: Counter): int {
    MergeInsideDelta(env, n, f, c) - (Tally(MergeInside(env, n, f), c) - Tally(n, c))
  }

  function GapAll(env: Env, ns: seq<Node>, fs: seq<Found>, c: Counter): int {
    MergeAllDelta(env, ns, fs, c) - (TallyAll(MergeAll(env, ns, fs), c) - TallyAll(ns, c))
  }

  function GapFound(env: Env, n: Node, f: Found, c: Counter): int {
    FoundDelta(env, n, f, c) - (Tally(HandleFoundNode(env, n, f), c) - Tally(n, c))
  }

  lemma {:induction false} PastOnly(h: seq<Point>)
    requires forall i :: 0 <= i < |h| ==> h[i].backup.Past?
    ensures CountRef(h, Current) == 0
  {
    if h != [] { PastOnly(h[1..]); }
  }

  lemma {:induction false} PolicyChangeKeepsPast(n: Node, policy: Policy)
    requires Loaded(n)
    ensures var h := HandlePolicyChanges(n, policy).history;
      h != [] && forall i :: 0 <= i < |h| ==> h[i].backup.Past?
  {
    assert PopRemoved(n.history) != [];
  }

  lemma {:induction false} PolicyGap(n: Node, policy: Policy, c: Counter)
    requires Wiped(n) && Loaded(n) && (c == Total || c == Refs(Current))
    ensures PolicyDelta(n, policy, c) == TallyAll(HandlePolicyChanges(n, policy).subs, c) - TallyAll(n.subs, c)
  {
    if n.policy != policy && n.policy.Track? {
      WipeAllCounts(n.subs, c);
      var h := PopRemoved(n.history);
      assert One(n.history[0].backup, c) == 0;
      if |h| > 1 { PastOnly(h[1..]); }
    }
  }

  /** The hint and history part of handleFoundNode(), after policy changes are dealt with. */
  lemma {:induction false} WipedFoundSelf(env: Env, n1: Node, f: Found, c: Counter)
    requires Wiped(n1) && n1.policy == f.policy && n1.history != [] && !f.entry.Other?
    requires forall i :: 0 <= i < |n1.history| ==> n1.history[i].backup.Past?
    requires c == Total || c == Refs(Current)
    ensures var r := HandleFoundNode(env, n1, f);
      && FoundDelta(env, n1, f, c) == (if c.Total? then 0 else 1)
      && (Weight(r, c) == if Wiped(r) then 0 else 1)
  {
    var r := HandleFoundNode(env, n1, f);
    PastOnly(n1.history);
    PastOnly(n1.history[1..]);
    assert r.history[0].backup == Current && (r.history[1..] == n1.history || r.history[1..] == n1.history[1..]);
    assert One(n1.history[0].backup, c) == 0;
  }

  lemma {:induction false} FoundAfterPolicy(env: Env, n: Node, f: Found, c: Counter)
    ensures var n1 := HandlePolicyChanges(n, f.policy);
      && HandleFoundNode(env, n, f) == HandleFoundNode(env, n1, f)
      && FoundDelta(env, n, f, c) == PolicyDelta(n, f.policy, c) + FoundDelta(env, n1, f, c)
      && HandleFoundNode(env, n, f).subs == n1.subs
  {
  }

  /** Finding a wiped node always leaves exactly one of two counters off by one. */
  lemma {:induction false} WipedFoundGap(env: Env, n: Node, f: Found)
    requires Wiped(n) && Loaded(n) && !f.entry.Other?
    ensures GapFound(env, n, f, Total) <= 0 <= GapFound(env, n, f, Refs(Current))
    ensures GapFound(env, n, f, Refs(Current)) - GapFound(env, n, f, Total) == 1
  {
    var n1 := HandlePolicyChanges(n, f.policy);
    PolicyChangeKeepsPast(n, f.policy);
    var r := HandleFoundNode(env, n, f);
    forall c | c == Total || c == Refs(Current)
      ensures GapFound(env, n, f, c) == (if c.Total? then 0 else 1) - (if Wiped(r) then 0 else 1)
    {
      FoundAfterPolicy(env, n, f, c);
      PolicyGap(n, f.policy, c);
      WipedFoundSelf(env, n1, f, c);
      assert Tally(r, c) == Weight(r, c) + TallyAll(n1.subs, c);
      assert Tally(n, c) == TallyAll(n.subs, c);
    }
  }

  /** The sign of every gap, and that both gaps vanish only if no wiped node was found. */
  ghost predicate GapLaw(total: int, current: int, safe: bool) {
    total <= 0 <= current && (safe <==> total == 0 && current == 0)
  }

  lemma {:induction false} GapOneLaw(env: Env, ns: seq<Node>, f: Found)
    requires DistinctPaths(f.children)
    requires Lookup(ns, f.path).Some? ==> Loaded(Lookup(ns, f.path).value)
    ensures GapLaw(Gap(env, ns, f, Total), Gap(env, ns, f, Refs(Current)), SafeOne(env, ns, f))
    decreases f
  {
    if f.entry.Other? {
    } else {
      var i := IndexOf(ns, f.path);
      var n := if i == |ns| then NewNode(f) else HandleFoundNode(env, ns[i], f);
      forall c | c == Total || c == Refs(Current)
        ensures Gap(env, ns, f, c) == (if i < |ns| then GapFound(env, ns[i], f, c) else 0) + GapInside(env, n, f, c)
      {
        GapOneSplits(env, ns, f, c);
      }
      if i < |ns| {
        if Wiped(ns[i]) {
          WipedFoundGap(env, ns[i], f);
        } else {
          FoundCounts(env, ns[i], f, Total);
          FoundCounts(env, ns[i], f, Refs(Current));
        }
        FoundKeepsLoadedSubs(env, ns[i], f);
      }
      GapInsideLaw(env, n, f);
    }
  }

  lemma {:induction false} GapOneSplits(env: Env, ns: seq<Node>, f: Found, c: Counter)
    requires !f.entry.Other?
    ensures var i := IndexOf(ns, f.path);
      var n := if i == |ns| then NewNode(f) else HandleFoundNode(env, ns[i], f);
      Gap(env, ns, f, c) == (if i < |ns| then GapFound(env, ns[i], f, c) else 0) + GapInside(env, n, f, c)
  {
    if IndexOf(ns, f.path) == |ns| { GapOfNew(env, ns, f, c); } else { GapOfKnown(env, ns, f, c); }
  }

  lemma {:induction false} GapOfNew(env: Env, ns: seq<Node>, f: Found, c: Counter)
    requires !f.entry.Other? && IndexOf(ns, f.path) == |ns|
    ensures Gap(env, ns, f, c) == GapInside(env, NewNode(f), f, c)
  {
    var n := NewNode(f);
    var inside := MergeInside(env, n, f);
    var r := CompleteNode(env, inside, f);
    CompleteCounts(env, inside, f, c);
    NewNodeTally(f, c);
    assert MergeOne(env, ns, f) == [r] + ns;
    assert TallyAll([r] + ns, c) == Tally(r, c) + TallyAll(ns, c) by { assert ([r] + ns)[1..] == ns; }
  }

  lemma {:induction false} NewNodeTally(f: Found, c: Counter)
    ensures Tally(NewNode(f), c) == if c.Total? then 1 else One(Current, c)
  {
    assert NewNode(f).history[1..] == [];
    if c.Refs? { assert CountRef(NewNode(f).history, c.backup) == One(Current, c); }
  }

  lemma {:induction false} GapOfKnown(env: Env, ns: seq<Node>, f: Found, c: Counter)
    requires !f.entry.Other? && IndexOf(ns, f.path) < |ns|
    ensures var n := ns[IndexOf(ns, f.path)];
      Gap(env, ns, f, c) == GapFound(env, n, f, c) + GapInside(env, HandleFoundNode(env, n, f), f, c)
  {
    var i := IndexOf(ns, f.path);
    var n := HandleFoundNode(env, ns[i], f);
    var inside := MergeInside(env, n, f);
    CompleteCounts(env, inside, f, c);
    TallyReplace(ns, i, CompleteNode(env, inside, f), c);
    assert MergeOneDelta(env, ns, f, c)
        == FoundDelta(env, ns[i], f, c) + MergeInsideDelta(env, n, f, c) + CompleteDelta(env, inside, f, c);
  }

  lemma {:induction false} FoundKeepsLoadedSubs(env: Env, n: Node, f: Found)
    requires Loaded(n)
    ensures var r := HandleFoundNode(env, n, f); forall i :: 0 <= i < |r.subs| ==> Loaded(r.subs[i])
  {
    forall i | 0 <= i < |n.subs| ensures Loaded(WipeRec(n.subs[i])) { WipeKeepsLoaded(n.subs[i]); }
  }

  lemma {:induction false} WipeKeepsLoaded(n: Node)
    requires Loaded(n)
    ensures Loaded(WipeRec(n))
  {
    forall i | 0 <= i < |n.subs| ensures Loaded(WipeRec(n.subs[i])) { WipeKeepsLoaded(n.subs[i]); }
  }

  lemma {:induction false} GapInsideLaw(env: Env, n: Node, f: Found)
    requires DistinctPaths(f.children)
    requires forall i :: 0 <= i < |n.subs| ==> Loaded(n.subs[i])
    ensures GapLaw(GapInside(env, n, f, Total), GapInside(env, n, f, Refs(Current)), SafeInside(env, n, f))
    decreases f, 0
  {
    if f.entry.Dir? { GapAllLaw(env, n.subs, f.children); }
  }

  lemma {:induction false} GapAllLaw(env: Env, ns: seq<Node>, fs: seq<Found>)
    requires DistinctPaths(fs) && AllKnown(ns, fs, Loaded)
    ensures GapLaw(GapAll(env, ns, fs, Total), GapAll(env, ns, fs, Refs(Current)), SafeAll(env, ns, fs))
    decreases fs
  {
    if fs != [] {
      GapOneLaw(env, ns, fs[0]);
      AllKnownRest(env, ns, fs, Loaded);
      GapAllLaw(env, MergeOne(env, ns, fs[0]), fs[1..]);
    }
  }

  /** Whether a pass changes every counter by exactly as much as the recount changes. */
  ghost predicate Conserves(env: Env, ns: seq<Node>, fs: seq<Found>, root: SearchNode) {
    forall c :: InitiateDelta(env, ns, fs, root, c) == TallyAll(InitiateBackup(env, ns, fs, root), c) - TallyAll(ns, c)
  }

  lemma {:induction false} LoadedEverywhere(ns: seq<Node>, fs: seq<Found>)
    requires forall i :: 0 <= i < |ns| ==> Loaded(ns[i]) && Fresh(ns[i])
    ensures AllKnown(ns, fs, Loaded) && AllKnown(ns, fs, Fresh)
  {
  }

  /** Reference counts and the path count stay right if and only if no policy change wipes a
      subnode that the traversal then finds. */
  lemma {:induction false} ConservesIffUnblocked(env: Env, ns: seq<Node>, fs: seq<Found>, root: SearchNode)
    requires forall i :: 0 <= i < |ns| ==> Loaded(ns[i]) && Fresh(ns[i])
    requires DistinctPaths(fs)
    ensures Conserves(env, ns, fs, root) <==> UnblockedAll(ns, fs)
  {
    LoadedEverywhere(ns, fs);
    SafeIffUnblocked(env, ns, fs);
    if SafeAll(env, ns, fs) {
      forall c { PassConservesCounts(env, ns, fs, root, c); }
    } else {
      GapAllLaw(env, ns, fs);
      var all := MergeAll(env, ns, fs);
      forall c | c == Total || c == Refs(Current)
        ensures InitiateDelta(env, ns, fs, root, c) - (TallyAll(InitiateBackup(env, ns, fs, root), c) - TallyAll(ns, c)) == GapAll(env, ns, fs, c)
      {
        NotFoundAllCounts(env, all, Some(root), root.policy, c);
      }
    }
  }
}
