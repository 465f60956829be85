/** What every backup pass keeps true of the histories of live nodes. */
module History {
  import opened Data
  import opened Str
  import opened Metadata
  import opened Backup
  import opened BackupFrame
  import opened RefCounts
  import opened RefCountsExact

  /** Position of a backup on the time line; smaller is newer. */
  function Age(b: BackupRef): nat { match b case Current => 0 case Past(i) => i + 1 }

  ghost predicate NewestFirst(h: seq<Point>) {
    forall i, j :: 0 <= i < j < |h| ==> Age(h[i].backup) < Age(h[j].backup)
  }

  ghost predicate NoAdjacentRemovals(h: seq<Point>) {
    forall i :: 0 <= i < |h| - 1 ==> !h[i].state.NonExisting? || !h[i + 1].state.NonExisting?
  }

  ghost predicate HistoryOk(policy: Policy, h: seq<Point>) {
    && h != []
    && !h[|h| - 1].state.NonExisting?
    && NoAdjacentRemovals(h)
    && NewestFirst(h)
    && (!policy.Track? ==> |h| == 1)
  }

  /** Every live node of the tree has a well-formed history. */
  ghost predicate Disciplined(n: Node)
    decreases n
  {
    && (!Wiped(n) ==> HistoryOk(n.policy, n.history))
    && (forall i :: 0 <= i < |n.subs| ==> Disciplined(n.subs[i]))
  }

  predicate OnlyPast(h: seq<Point>) { forall i :: 0 <= i < |h| ==> h[i].backup.Past? }

  /** A node no part of the pass has touched yet. */
  ghost predicate Untouched(n: Node) { Fresh(n) && Loaded(n) && Disciplined(n) }

  /** A node in the middle of a pass. */
  ghost predicate InPass(n: Node) { Untouched(n) || (n.hint != NoHint && Disciplined(n)) }

  ghost predicate AllUntouched(ns: seq<Node>) { forall i :: 0 <= i < |ns| ==> Untouched(ns[i]) }
  ghost predicate AllInPass(ns: seq<Node>) { forall i :: 0 <= i < |ns| ==> InPass(ns[i]) }
  ghost predicate AllDisciplined(ns: seq<Node>) { forall i :: 0 <= i < |ns| ==> Disciplined(ns[i]) }

  lemma {:induction false} UntouchedSubs(n: Node)
    requires Untouched(n)
    ensures AllUntouched(n.subs) && !Wiped(n) && OnlyPast(n.history) && HistoryOk(n.policy, n.history)
  {
  }

  // ----- wiping, removing, policy changes -----

  lemma {:induction false} WipeRecDisciplined(n: Node)
    ensures Disciplined(WipeRec(n)) && Wiped(WipeRec(n))
    decreases n
  {
    forall i | 0 <= i < |n.subs| ensures Disciplined(WipeRec(n).subs[i]) { WipeRecDisciplined(n.subs[i]); }
  }

  lemma {:induction false} WipeAllDisciplined(ns: seq<Node>)
    ensures AllDisciplined(WipeAll(ns)) && AllWiped(WipeAll(ns))
  {
    forall i | 0 <= i < |ns| ensures Disciplined(WipeRec(ns[i])) && Wiped(WipeRec(ns[i])) { WipeRecDisciplined(ns[i]); }
  }

  lemma {:induction false} PrependOk(policy: Policy, p: Point, h: seq<Point>)
    requires HistoryOk(Track, h) && OnlyPast(h) && p.backup.Current? && policy.Track?
    requires !p.state.NonExisting? || !h[0].state.NonExisting?
    ensures HistoryOk(policy, [p] + h)
  {
  }

  lemma {:induction false} MarkRemovedDisciplined(n: Node, extend: bool)
    requires Disciplined(n) && Loaded(n)
    ensures Disciplined(MarkRemovedRec(n, extend))
    decreases n
  {
    if !Wiped(n) {
      forall i | 0 <= i < |n.subs| ensures Disciplined(MarkRemovedRec(n, extend).subs[i]) {
        MarkRemovedDisciplined(n.subs[i], ExtendBelow(n, extend));
      }
      if extend && n.policy.Track? && !HeadState(n).NonExisting? {
        PrependOk(n.policy, Point(Current, NonExisting), n.history);
      }
    }
  }

  /** Popping the removed point leaves an existing head, so that the code may dereference it. */
  lemma {:induction false} PopLeavesExisting(policy: Policy, h: seq<Point>)
    requires HistoryOk(policy, h)
    ensures PopRemoved(h) != [] && !PopRemoved(h)[0].state.NonExisting?
    ensures OnlyPast(h) ==> OnlyPast(PopRemoved(h))
  {
  }

  lemma {:induction false} PolicyChangeOk(n: Node, policy: Policy)
    requires Disciplined(n) && !Wiped(n)
    ensures Disciplined(HandlePolicyChanges(n, policy)) && !Wiped(HandlePolicyChanges(n, policy))
    ensures OnlyPast(n.history) ==> OnlyPast(HandlePolicyChanges(n, policy).history)
    ensures HandlePolicyChanges(n, policy).policy == policy
  {
    if n.policy != policy && n.policy.Track? {
      PopLeavesExisting(n.policy, n.history);
      WipeAllDisciplined(n.subs);
    }
  }

  lemma {:induction false} LoadedAfterPolicy(n: Node, policy: Policy)
    requires Untouched(n)
    ensures Loaded(HandlePolicyChanges(n, policy))
  {
    if n.policy != policy && n.policy.Track? {
      PopLeavesExisting(n.policy, n.history);
      forall i | 0 <= i < |n.subs| ensures Loaded(WipeRec(n.subs[i])) { WipeKeepsLoaded(n.subs[i]); }
    }
  }

  lemma {:induction false} RemovedPathOk(n: Node, policy: Policy)
    requires Untouched(n)
    ensures Disciplined(HandleRemovedPath(n, policy)) && HandleRemovedPath(n, policy).hint != NoHint
  {
    UntouchedSubs(n);
    PolicyChangeOk(n, policy);
    LoadedAfterPolicy(n, policy);
    var n1 := HandlePolicyChanges(n, policy);
    WipeRecDisciplined(n1);
    MarkRemovedDisciplined(n1, true);
  }

  lemma {:induction false} NotFoundOk(env: Env, n: Node, parent: Option<SearchNode>, parentPolicy: Policy)
    requires InPass(n)
    ensures Disciplined(HandleNotFound(env, n, parent, parentPolicy)) && HandleNotFound(env, n, parent, parentPolicy).hint != NoHint
  {
    if n.hint == NoHint {
      WipeRecDisciplined(n);
      var p := SupposedPolicy(env, n.path, parent, parentPolicy);
      if p.Some? { RemovedPathOk(n, p.value); }
    }
  }

  // ----- finding -----

  /** Comparing a node with a directory never claims that a directory was replaced, and leaves a
      directory state whenever it writes the state. */
  lemma {:induction false} DirectoryChanges(env: Env, h: Hint, s: PathState, f: Found)
    requires f.entry.Dir? && h.core == NoFlags && !s.NonExisting?
    ensures var (h', s') := HandleNodeChanges(env, h, s, f);
      && !IsKind(h', DirectoryToRegular) && !IsKind(h', DirectoryToSymlink)
      && (!f.policy.NoPolicy? ==> s'.Directory?)
  {
  }

  lemma {:induction false} ChangesKeepExisting(env: Env, h: Hint, s: PathState, f: Found)
    requires !f.entry.Other? && !s.NonExisting?
    ensures !HandleNodeChanges(env, h, s, f).1.NonExisting?
  {
  }

  lemma {:induction false} FoundHistoryOk(env: Env, n: Node, f: Found)
    requires Untouched(n) && !f.entry.Other?
    ensures var r := HandleFoundNode(env, n, f);
      HistoryOk(r.policy, r.history)
  {
    UntouchedSubs(n);
    PolicyChangeOk(n, f.policy);
    var n1 := HandlePolicyChanges(n, f.policy);
    assert HistoryOk(n1.policy, n1.history);
    var st := n1.history[0].state;
    var s := HandleNodeChanges(env, n1.hint, st, f).1;
    if !st.NonExisting? { ChangesKeepExisting(env, n1.hint, st, f); }
    if f.policy.Track? {
      if st.NonExisting? {
        PrependOk(Track, Point(Current, StateOf(f.entry)), n1.history);
      } else {
        PrependOk(Track, Point(Current, s), n1.history);
      }
    }
  }

  lemma {:induction false} FoundDirectory(env: Env, n: Node, f: Found)
    requires Untouched(n) && f.entry.Dir?
    ensures var r := HandleFoundNode(env, n, f);
      && (!f.policy.NoPolicy? ==> HeadState(r).Directory?)
      && !IsKind(r.hint, DirectoryToRegular) && !IsKind(r.hint, DirectoryToSymlink)
  {
    UntouchedSubs(n);
    PolicyChangeOk(n, f.policy);
    var n1 := HandlePolicyChanges(n, f.policy);
    assert n1.hint.core == NoFlags;
    if !n1.history[0].state.NonExisting? {
      DirectoryChanges(env, n1.hint, n1.history[0].state, f);
    }
  }

  lemma {:induction false} FoundOk(env: Env, n: Node, f: Found)
    requires Untouched(n) && !f.entry.Other?
    ensures var r := HandleFoundNode(env, n, f);
      && Disciplined(r) && !Wiped(r)
      && (f.entry.Dir? && f.policy.Track? ==> HeadState(r).Directory?)
      && (f.entry.Dir? ==> !IsKind(r.hint, DirectoryToRegular) && !IsKind(r.hint, DirectoryToSymlink))
  {
    UntouchedSubs(n);
    PolicyChangeOk(n, f.policy);
    FoundCounts(env, n, f, Total);
    FoundHistoryOk(env, n, f);
    if f.entry.Dir? { FoundDirectory(env, n, f); }
    assert HandleFoundNode(env, n, f).subs == HandlePolicyChanges(n, f.policy).subs;
  }

  lemma {:induction false} SettleOk(env: Env, n: Node, f: Found)
    requires !f.entry.Dir? ==> AllLoaded(n.subs) && AllInPass(n.subs)
    requires f.entry.Dir? ==>
      && AllInPass(n.subs) && !(f.policy.Track? && HeadState(n).RegularFile?)
      && !IsKind(n.hint, DirectoryToRegular) && !IsKind(n.hint, DirectoryToSymlink)
    ensures AllDisciplined(SettleSubnodes(env, n, f))
  {
    WipeAllDisciplined(n.subs);
    forall i | 0 <= i < |n.subs|
      ensures Disciplined(HandleNotFound(env, n.subs[i], f.node, f.policy))
    {
      NotFoundOk(env, n.subs[i], f.node, f.policy);
    }
    if !f.entry.Dir? {
      forall i, b | 0 <= i < |n.subs| ensures Disciplined(MarkRemovedRec(n.subs[i], b)) {
        MarkRemovedDisciplined(n.subs[i], b);
      }
    }
  }

  ghost predicate AllLoaded(ns: seq<Node>) { forall i :: 0 <= i < |ns| ==> Loaded(ns[i]) }

  lemma {:induction false} CompleteOk(env: Env, n: Node, f: Found)
    requires HistoryOk(n.policy, n.history)
    requires AllDisciplined(SettleSubnodes(env, n, f))
    ensures Disciplined(CompleteNode(env, n, f)) && CompleteNode(env, n, f).hint != NoHint
  {
  }

  lemma {:induction false} FoundSubs(env: Env, n: Node, f: Found)
    requires Untouched(n)
    ensures var r := HandleFoundNode(env, n, f);
      && AllLoaded(r.subs) && AllInPass(r.subs)
      && (r.subs == n.subs || r.subs == WipeAll(n.subs))
  {
    UntouchedSubs(n);
    WipeAllDisciplined(n.subs);
    forall i | 0 <= i < |n.subs| ensures Loaded(WipeRec(n.subs[i])) { WipeKeepsLoaded(n.subs[i]); }
  }

  lemma {:induction false} MergeOneOk(env: Env, ns: seq<Node>, f: Found)
    requires AllInPass(ns) && DistinctPaths(f.children) && SafeOne(env, ns, f)
    requires Lookup(ns, f.path).Some? ==> Wiped(Lookup(ns, f.path).value) || Untouched(Lookup(ns, f.path).value)
    ensures AllInPass(MergeOne(env, ns, f))
    decreases f
  {
    if !f.entry.Other? {
      var i := IndexOf(ns, f.path);
      var n := if i == |ns| then NewNode(f) else HandleFoundNode(env, ns[i], f);
      if i < |ns| {
        FoundOk(env, ns[i], f);
        FoundSubs(env, ns[i], f);
      }
      if f.entry.Dir? {
        InsideKnown(if i == |ns| then [] else ns[i].subs, n.subs, f.children);
        MergeAllOk(env, n.subs, f.children);
      }
      var inside := MergeInside(env, n, f);
      SettleOk(env, inside, f);
      CompleteOk(env, inside, f);
    }
  }

  lemma {:induction false} InsideKnown(before: seq<Node>, subs: seq<Node>, fs: seq<Found>)
    requires AllUntouched(before) && (subs == before || subs == WipeAll(before))
    ensures AllKnown(subs, fs, (n: Node) => Wiped(n)) || AllUntouched(subs)
  {
    WipeAllDisciplined(before);
  }

  lemma {:induction false} MergeAllOk(env: Env, ns: seq<Node>, fs: seq<Found>)
    requires AllInPass(ns) && DistinctPaths(fs) && SafeAll(env, ns, fs)
    requires forall i :: 0 <= i < |fs| && Lookup(ns, fs[i].path).Some? ==>
      Wiped(Lookup(ns, fs[i].path).value) || Untouched(Lookup(ns, fs[i].path).value)
    ensures AllInPass(MergeAll(env, ns, fs))
    decreases fs
  {
    if fs != [] {
      MergeOneOk(env, ns, fs[0]);
      RestLookups(env, ns, fs);
      MergeAllOk(env, MergeOne(env, ns, fs[0]), fs[1..]);
    }
  }

  /** A pass over a loaded tree keeps every live history well formed: non-empty, starting with an
      existing state, never removed twice in a row, a single point unless tracked, newest first
      with at most one point of the current backup. */
  lemma {:induction false} PassKeepsDiscipline(env: Env, ns: seq<Node>, fs: seq<Found>, root: SearchNode)
    requires AllUntouched(ns) && DistinctPaths(fs) && UnblockedAll(ns, fs)
    ensures AllDisciplined(InitiateBackup(env, ns, fs, root))
  {
    SafeIffUnblocked(env, ns, fs);
    MergeAllOk(env, ns, fs);
    var all := MergeAll(env, ns, fs);
    forall i | 0 <= i < |all| ensures Disciplined(HandleNotFound(env, all[i], Some(root), root.policy)) {
      NotFoundOk(env, all[i], Some(root), root.policy);
    }
  }
}
