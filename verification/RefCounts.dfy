/** Reference counts and the path count are conserved by a backup pass exactly when no result
    finds a node that the same pass has already wiped. */
module RefCounts {
  import opened Data
  import opened Str
  import opened Metadata
  import opened Backup

  lemma {:induction false} CountRefConcat(a: seq<Point>, b: seq<Point>, r: BackupRef)
    ensures CountRef(a + b, r) == CountRef(a, r) + CountRef(b, r)
  {
    if a == [] {
      assert a + b == b;
    } else {
      assert (a + b)[1..] == a[1..] + b;
      CountRefConcat(a[1..], b, r);
    }
  }

  // ----- wiping -----

  lemma {:induction false} WipeRecCounts(n: Node, c: Counter)
    ensures WipeRecDelta(n, c) == -(Tally(n, c) as int)
    ensures Tally(WipeRec(n), c) == 0
    decreases n
  {
    WipeAllCounts(n.subs, c);
    assert WipeRec(n).subs == WipeAll(n.subs);
  }

  lemma {:induction false} WipeAllCounts(ns: seq<Node>, c: Counter)
    ensures WipeAllDelta(ns, c) == -(TallyAll(ns, c) as int)
    ensures TallyAll(WipeAll(ns), c) == 0
    decreases ns
  {
    if ns != [] {
      WipeRecCounts(ns[0], c);
      WipeAllCounts(ns[1..], c);
      assert WipeAll(ns)[1..] == WipeAll(ns[1..]);
    }
  }

  lemma {:induction false} PrepareWipeCounts(n: Node, c: Counter)
    ensures WipeDelta(n, c) == Tally(PrepareWipe(n), c) - Tally(n, c)
  {
  }

  // ----- removing -----

  lemma {:induction false} MarkRemovedCounts(n: Node, extend: bool, c: Counter)
    ensures MarkRemovedDelta(n, extend, c) == Tally(MarkRemovedRec(n, extend), c) - Tally(n, c)
    decreases n
  {
    if !Wiped(n) {
      MarkRemovedAllCounts(n.subs, ExtendBelow(n, extend), c);
      assert MarkRemovedRec(n, extend).subs == MarkRemovedAll(n.subs, ExtendBelow(n, extend));
      if c.Refs? { CountRefConcat([Point(Current, NonExisting)], n.history, c.backup); }
    }
  }

  lemma {:induction false} MarkRemovedAllCounts(ns: seq<Node>, extend: bool, c: Counter)
    ensures MarkRemovedAllDelta(ns, extend, c) == TallyAll(MarkRemovedAll(ns, extend), c) - TallyAll(ns, c)
    decreases ns
  {
    if ns != [] {
      MarkRemovedCounts(ns[0], extend, c);
      MarkRemovedAllCounts(ns[1..], extend, c);
      assert MarkRemovedAll(ns, extend)[1..] == MarkRemovedAll(ns[1..], extend);
    }
  }

  /** Popping the removed point and truncating the rest drops the points that are decremented. */
  lemma {:induction false} TruncateCounts(h: seq<Point>, c: Counter)
    requires c.Refs? && h != []
    ensures (var p := PopRemoved(h);
             CountRef(h, c.backup) - CountRef(if |p| > 1 then p[..1] else p, c.backup)
             == (if |p| < |h| then One(h[0].backup, c) else 0) - (if |p| > 1 then DecrementDelta(p[1..], c) else 0))
  {
    var p := PopRemoved(h);
    if |p| > 1 {
      CountRefConcat(p[..1], p[1..], c.backup);
      assert p[..1] + p[1..] == p;
    }
  }

  lemma {:induction false} PolicyWeight(n: Node, policy: Policy, c: Counter)
    requires !Wiped(n) && n.policy != policy && n.policy.Track?
    ensures !Wiped(HandlePolicyChanges(n, policy))
    ensures PolicyDelta(n, policy, c) == (Weight(HandlePolicyChanges(n, policy), c) as int) - Weight(n, c)
      + (if WipesSubnodes(n, policy) then WipeAllDelta(n.subs, c) else 0)
  {
    if c.Refs? && n.history != [] { TruncateCounts(n.history, c); }
  }

  lemma {:induction false} PolicyCounts(n: Node, policy: Policy, c: Counter)
    requires !Wiped(n)
    ensures PolicyDelta(n, policy, c) == Tally(HandlePolicyChanges(n, policy), c) - Tally(n, c)
    ensures !Wiped(HandlePolicyChanges(n, policy))
  {
    if n.policy != policy && n.policy.Track? {
      PolicyWeight(n, policy, c);
      WipeAllCounts(n.subs, c);
    }
  }

  lemma {:induction false} RemovedPathCounts(n: Node, policy: Policy, c: Counter)
    requires !Wiped(n)
    ensures RemovedPathDelta(n, policy, c) == Tally(HandleRemovedPath(n, policy), c) - Tally(n, c)
  {
    PolicyCounts(n, policy, c);
    var n1 := HandlePolicyChanges(n, policy);
    WipeRecCounts(n1, c);
    MarkRemovedCounts(n1, true, c);
  }

  lemma {:induction false} NotFoundCounts(env: Env, n: Node, parent: Option<SearchNode>, parentPolicy: Policy, c: Counter)
    ensures NotFoundDelta(env, n, parent, parentPolicy, c)
         == Tally(HandleNotFound(env, n, parent, parentPolicy), c) - Tally(n, c)
  {
    if n.hint == NoHint {
      WipeRecCounts(n, c);
      var p := SupposedPolicy(env, n.path, parent, parentPolicy);
      if p.Some? { RemovedPathCounts(n, p.value, c); }
    }
  }

  lemma {:induction false} NotFoundAllCounts(env: Env, ns: seq<Node>, parent: Option<SearchNode>, parentPolicy: Policy, c: Counter)
    ensures NotFoundAllDelta(env, ns, parent, parentPolicy, c)
         == TallyAll(HandleNotFoundAll(env, ns, parent, parentPolicy), c) - TallyAll(ns, c)
  {
    if ns != [] {
      NotFoundCounts(env, ns[0], parent, parentPolicy, c);
      NotFoundAllCounts(env, ns[1..], parent, parentPolicy, c);
      assert HandleNotFoundAll(env, ns, parent, parentPolicy)[1..] == HandleNotFoundAll(env, ns[1..], parent, parentPolicy);
    }
  }

  // ----- finding -----

  lemma {:induction false} NodeChangesKeepLive(env: Env, h: Hint, s: PathState, f: Found)
    ensures HandleNodeChanges(env, h, s, f).0.core == Exclusive(NotPartOfRepository) ==> h.core == Exclusive(NotPartOfRepository)
  {
  }

  lemma {:induction false} FoundCounts(env: Env, n: Node, f: Found, c: Counter)
    requires !Wiped(n)
    ensures FoundDelta(env, n, f, c) == Tally(HandleFoundNode(env, n, f), c) - Tally(n, c)
    ensures !Wiped(HandleFoundNode(env, n, f))
  {
    PolicyCounts(n, f.policy, c);
    var n1 := HandlePolicyChanges(n, f.policy);
    var r := HandleFoundNode(env, n, f);
    if n1.history != [] {
      NodeChangesKeepLive(env, n1.hint, n1.history[0].state, f);
      if c.Refs? {
        assert r.history[1..] == n1.history[1..] || r.history[1..] == n1.history || r.history == n1.history;
      }
    }
  }

  lemma {:induction false} SettleCounts(env: Env, n: Node, f: Found, c: Counter)
    ensures SettleDelta(env, n, f, c) == TallyAll(SettleSubnodes(env, n, f), c) - TallyAll(n.subs, c)
  {
    MarkRemovedAllCounts(n.subs, f.policy.Track?, c);
    MarkRemovedAllCounts(n.subs, false, c);
    WipeAllCounts(n.subs, c);
    NotFoundAllCounts(env, n.subs, f.node, f.policy, c);
  }

  lemma {:induction false} CompleteCounts(env: Env, n: Node, f: Found, c: Counter)
    ensures CompleteDelta(env, n, f, c) == Tally(CompleteNode(env, n, f), c) - Tally(n, c)
  {
    SettleCounts(env, n, f, c);
    PrepareWipeCounts(n.(subs := SettleSubnodes(env, n, f)), c);
  }

  lemma {:induction false} TallySplit(ns: seq<Node>, i: nat, c: Counter)
    requires i < |ns|
    ensures TallyAll(ns, c) == TallyAll(ns[..i], c) + Tally(ns[i], c) + TallyAll(ns[i + 1..], c)
  {
    if i > 0 {
      TallySplit(ns[1..], i - 1, c);
      assert ns[1..][..i - 1] == ns[..i][1..];
    }
  }

  lemma {:induction false} TallyReplace(ns: seq<Node>, i: nat, n: Node, c: Counter)
    requires i < |ns|
    ensures TallyAll(ns[i := n], c) == TallyAll(ns, c) - Tally(ns[i], c) + Tally(n, c)
  {
    TallySplit(ns, i, c);
    TallySplit(ns[i := n], i, c);
    assert ns[i := n][..i] == ns[..i];
    assert ns[i := n][i + 1..] == ns[i + 1..];
  }

  // ----- one pass -----

  /** Whether merging the results never finds a node that is already wiped. */
  predicate SafeOne(env: Env, ns: seq<Node>, f: Found)
    decreases f
  {
    f.entry.Other? ||
    var i := IndexOf(ns, f.path);
    if i == |ns| then SafeInside(env, NewNode(f), f)
    else !Wiped(ns[i]) && SafeInside(env, HandleFoundNode(env, ns[i], f), f)
  }

  predicate SafeInside(env: Env, n: Node, f: Found)
    decreases f, 0
  {
    f.entry.Dir? ==> SafeAll(env, n.subs, f.children)
  }

  predicate SafeAll(env: Env, ns: seq<Node>, fs: seq<Found>)
    decreases fs
  {
    fs == [] || (SafeOne(env, ns, fs[0]) && SafeAll(env, MergeOne(env, ns, fs[0]), fs[1..]))
  }

  lemma {:induction false} MergeOneCounts(env: Env, ns: seq<Node>, f: Found, c: Counter)
    requires SafeOne(env, ns, f)
    ensures MergeOneDelta(env, ns, f, c) == TallyAll(MergeOne(env, ns, f), c) - TallyAll(ns, c)
    decreases f
  {
    if !f.entry.Other? {
      var i := IndexOf(ns, f.path);
      var n := if i == |ns| then NewNode(f) else HandleFoundNode(env, ns[i], f);
      MergeInsideCounts(env, n, f, c);
      var inside := MergeInside(env, n, f);
      CompleteCounts(env, inside, f, c);
      if i == |ns| {
        var r := CompleteNode(env, inside, f);
        assert TallyAll([r] + ns, c) == Tally(r, c) + TallyAll(ns, c) by { assert ([r] + ns)[1..] == ns; }
        assert n.history[1..] == [];
        if c.Refs? { assert CountRef(n.history, c.backup) == One(Current, c); }
      } else {
        FoundCounts(env, ns[i], f, c);
        TallyReplace(ns, i, CompleteNode(env, inside, f), c);
      }
    }
  }

  lemma {:induction false} MergeInsideCounts(env: Env, n: Node, f: Found, c: Counter)
    requires SafeInside(env, n, f)
    ensures MergeInsideDelta(env, n, f, c) == Tally(MergeInside(env, n, f), c) - Tally(n, c)
    decreases f, 0
  {
    if f.entry.Dir? { MergeAllCounts(env, n.subs, f.children, c); }
  }

  lemma {:induction false} MergeAllCounts(env: Env, ns: seq<Node>, fs: seq<Found>, c: Counter)
    requires SafeAll(env, ns, fs)
    ensures MergeAllDelta(env, ns, fs, c) == TallyAll(MergeAll(env, ns, fs), c) - TallyAll(ns, c)
    decreases fs
  {
    if fs != [] {
      MergeOneCounts(env, ns, fs[0], c);
      MergeAllCounts(env, MergeOne(env, ns, fs[0]), fs[1..], c);
    }
  }

  /** A whole pass changes every counter by exactly as much as the recount changes. */
  lemma {:induction false} PassConservesCounts(env: Env, ns: seq<Node>, fs: seq<Found>, root: SearchNode, c: Counter)
    requires SafeAll(env, ns, fs)
    ensures InitiateDelta(env, ns, fs, root, c) == TallyAll(InitiateBackup(env, ns, fs, root), c) - TallyAll(ns, c)
  {
    MergeAllCounts(env, ns, fs, c);
    NotFoundAllCounts(env, MergeAll(env, ns, fs), Some(root), root.policy, c);
  }
}
