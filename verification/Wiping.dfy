/** Wiping is downward closed, so that the path count is the number of nodes that get written. */
module Wiping {
  import opened Data
  import opened Str
  import opened Metadata
  import opened Backup
  import opened BackupFrame
  import opened RefCounts
  import opened RefCountsExact
  import opened History

  ghost predicate DeepWiped(n: Node)
    decreases n
  {
    Wiped(n) && forall i :: 0 <= i < |n.subs| ==> DeepWiped(n.subs[i])
  }

  /** Everything below a wiped node is wiped. */
  ghost predicate Closed(n: Node)
    decreases n
  {
    && (Wiped(n) ==> forall i :: 0 <= i < |n.subs| ==> DeepWiped(n.subs[i]))
    && (forall i :: 0 <= i < |n.subs| ==> Closed(n.subs[i]))
  }

  /** Only directories and tracked paths have live subnodes. */
  ghost predicate Shaped(n: Node)
    decreases n
  {
    && (!Wiped(n) && !n.policy.Track? && !HeadState(n).Directory? ==> AllWiped(n.subs))
    && (forall i :: 0 <= i < |n.subs| ==> Shaped(n.subs[i]))
  }

  ghost predicate Neat(n: Node) { Closed(n) && Shaped(n) }

  ghost predicate AllNeat(ns: seq<Node>) { forall i :: 0 <= i < |ns| ==> Neat(ns[i]) }

  ghost predicate NeatInPass(n: Node) { (Fresh(n) && Shaped(n)) || (n.hint != NoHint && Neat(n)) }

  ghost predicate AllNeatInPass(ns: seq<Node>) { forall i :: 0 <= i < |ns| ==> NeatInPass(ns[i]) }

  /** A directory found without a policy is a directory in the metadata, too: otherwise the guard at
      src/backup.c:379 keeps the state of another type. */
  predicate Typed(n: Node, f: Found)
    decreases f, 0
  {
    && (f.entry.Dir? && f.policy.NoPolicy? ==> HeadState(HandlePolicyChanges(n, f.policy)).Directory?)
    && (f.entry.Dir? ==> WipesSubnodes(n, f.policy) || TypedAll(n.subs, f.children))
  }

  predicate TypedOne(ns: seq<Node>, f: Found)
    decreases f, 1
  {
    f.entry.Other? || Lookup(ns, f.path).None? || Typed(Lookup(ns, f.path).value, f)
  }

  predicate TypedAll(ns: seq<Node>, fs: seq<Found>)
    decreases fs
  {
    fs == [] || (TypedOne(ns, fs[0]) && TypedAll(ns, fs[1..]))
  }

  // ----- counting what the writer emits -----

  /** The number of nodes writePathList() emits: it skips a wiped node with everything below it. */
  function Emitted(ns: seq<Node>): nat
    decreases ns
  {
    if ns == [] then 0
    else (if Wiped(ns[0]) then 0 else 1 + Emitted(ns[0].subs)) + Emitted(ns[1..])
  }

  lemma {:induction false} DeepWipedTally(ns: seq<Node>)
    requires forall i :: 0 <= i < |ns| ==> DeepWiped(ns[i])
    ensures TallyAll(ns, Total) == 0
    decreases ns
  {
    if ns != [] {
      DeepWipedTally(ns[0].subs);
      DeepWipedTally(ns[1..]);
    }
  }

  lemma {:induction false} EmittedIsTally(ns: seq<Node>)
    requires forall i :: 0 <= i < |ns| ==> Closed(ns[i])
    ensures Emitted(ns) == TallyAll(ns, Total)
    decreases ns
  {
    if ns != [] {
      if Wiped(ns[0]) { DeepWipedTally(ns[0].subs); } else { EmittedIsTally(ns[0].subs); }
      EmittedIsTally(ns[1..]);
    }
  }

  // ----- single operations -----

  lemma {:induction false} DeepWipedIsNeat(n: Node)
    requires DeepWiped(n)
    ensures Neat(n)
    decreases n
  {
    forall i | 0 <= i < |n.subs| ensures Neat(n.subs[i]) { DeepWipedIsNeat(n.subs[i]); }
  }

  lemma {:induction false} WipeRecDeep(n: Node)
    ensures DeepWiped(WipeRec(n)) && Neat(WipeRec(n))
    decreases n
  {
    forall i | 0 <= i < |n.subs| ensures DeepWiped(WipeRec(n.subs[i])) { WipeRecDeep(n.subs[i]); }
    DeepWipedIsNeat(WipeRec(n));
  }

  lemma {:induction false} FreshIsClosed(n: Node)
    requires Fresh(n)
    ensures Closed(n) && !Wiped(n)
    decreases n
  {
    forall i | 0 <= i < |n.subs| ensures Closed(n.subs[i]) { FreshIsClosed(n.subs[i]); }
  }

  lemma {:induction false} FreshShapedNeat(ns: seq<Node>)
    requires forall i :: 0 <= i < |ns| ==> Fresh(ns[i]) && Shaped(ns[i])
    ensures AllNeat(ns)
  {
    forall i | 0 <= i < |ns| ensures Neat(ns[i]) { FreshIsClosed(ns[i]); }
  }

  lemma {:induction false} MarkDeep(n: Node, extend: bool)
    ensures Wiped(MarkRemovedRec(n, extend)) == Wiped(n)
    ensures DeepWiped(n) ==> MarkRemovedRec(n, extend) == n
  {
  }

  lemma {:induction false} MarkNeat(n: Node, extend: bool)
    requires Neat(n)
    ensures Neat(MarkRemovedRec(n, extend))
    decreases n
  {
    if !Wiped(n) {
      var r := MarkRemovedRec(n, extend);
      forall i | 0 <= i < |n.subs| ensures Neat(r.subs[i]) && Wiped(r.subs[i]) == Wiped(n.subs[i]) {
        MarkNeat(n.subs[i], ExtendBelow(n, extend));
        MarkDeep(n.subs[i], ExtendBelow(n, extend));
      }
    }
  }

  lemma {:induction false} PrepareWipeNeat(n: Node)
    requires AllNeat(n.subs) && AllWiped(n.subs)
    ensures Neat(PrepareWipe(n))
  {
    forall i | 0 <= i < |n.subs| ensures DeepWiped(n.subs[i]) { assert Closed(n.subs[i]); }
  }

  lemma {:induction false} PolicyNeat(n: Node, policy: Policy)
    requires Fresh(n) && Shaped(n)
    ensures var r := HandlePolicyChanges(n, policy);
      && !Wiped(r) && Neat(r) && AllNeatInPass(r.subs)
  {
    var r := HandlePolicyChanges(n, policy);
    FreshShapedNeat(n.subs);
    forall i | 0 <= i < |n.subs| ensures Neat(WipeRec(n.subs[i])) && Wiped(WipeRec(n.subs[i])) { WipeRecDeep(n.subs[i]); }
    assert r.subs == n.subs || r.subs == WipeAll(n.subs);
    assert WipesSubnodes(n, policy) ==> r.subs == WipeAll(n.subs);
    assert n.policy.Track? && n.policy != policy ==> HeadState(r) == HeadState(n.(history := PopRemoved(n.history)));
    assert !n.policy.Track? ==> HeadState(r) == HeadState(n);
  }

  lemma {:induction false} RemovedNeat(n: Node, policy: Policy)
    requires Fresh(n) && Shaped(n)
    ensures Neat(HandleRemovedPath(n, policy))
  {
    PolicyNeat(n, policy);
    var n1 := HandlePolicyChanges(n, policy);
    WipeRecDeep(n1);
    MarkNeat(n1, true);
    if policy.NoPolicy? && (n1.subs == [] || !HeadState(n1).Directory?) {
      assert n1.policy == policy;
      PrepareWipeNeat(n1);
    }
  }

  lemma {:induction false} NotFoundNeat(env: Env, n: Node, parent: Option<SearchNode>, parentPolicy: Policy)
    requires NeatInPass(n)
    ensures Neat(HandleNotFound(env, n, parent, parentPolicy))
    ensures Wiped(n) ==> Wiped(HandleNotFound(env, n, parent, parentPolicy))
  {
    if n.hint == NoHint {
      WipeRecDeep(n);
      var p := SupposedPolicy(env, n.path, parent, parentPolicy);
      if p.Some? { RemovedNeat(n, p.value); }
    }
  }

  predicate FromDirectory(h: Hint) { IsKind(h, DirectoryToRegular) || IsKind(h, DirectoryToSymlink) }

  lemma {:induction false} SettleNeat(env: Env, n: Node, f: Found)
    requires AllNeatInPass(n.subs)
    ensures AllNeat(SettleSubnodes(env, n, f))
    ensures AllWiped(n.subs) ==> AllWiped(SettleSubnodes(env, n, f))
    ensures FromDirectory(n.hint) && !f.policy.NoPolicy? && !f.policy.Track? ==> AllWiped(SettleSubnodes(env, n, f))
  {
    forall i | 0 <= i < |n.subs|
      ensures Neat(n.subs[i])
      ensures Neat(WipeRec(n.subs[i])) && Wiped(WipeRec(n.subs[i]))
      ensures forall b :: Neat(MarkRemovedRec(n.subs[i], b)) && Wiped(MarkRemovedRec(n.subs[i], b)) == Wiped(n.subs[i])
      ensures Neat(HandleNotFound(env, n.subs[i], f.node, f.policy))
      ensures Wiped(n.subs[i]) ==> Wiped(HandleNotFound(env, n.subs[i], f.node, f.policy))
    {
      if Fresh(n.subs[i]) { FreshIsClosed(n.subs[i]); }
      WipeRecDeep(n.subs[i]);
      forall b ensures Neat(MarkRemovedRec(n.subs[i], b)) && Wiped(MarkRemovedRec(n.subs[i], b)) == Wiped(n.subs[i]) {
        MarkNeat(n.subs[i], b);
        MarkDeep(n.subs[i], b);
      }
      NotFoundNeat(env, n.subs[i], f.node, f.policy);
    }
  }

  /** What is known of a found node once everything inside it was merged. */
  ghost predicate ReadyToSettle(n: Node, f: Found) {
    && !Wiped(n) && n.policy == f.policy
    && AllNeatInPass(n.subs)
    && (!f.policy.Track? && !HeadState(n).Directory? && !FromDirectory(n.hint) ==> AllWiped(n.subs))
    && (FromDirectory(n.hint) && f.policy.NoPolicy? ==> HeadState(n).Directory?)
  }

  lemma {:induction false} CompleteNeat(env: Env, n: Node, f: Found)
    requires ReadyToSettle(n, f)
    ensures Neat(CompleteNode(env, n, f)) && CompleteNode(env, n, f).hint != NoHint
  {
    SettleNeat(env, n, f);
    var n1 := n.(subs := SettleSubnodes(env, n, f));
    assert Neat(n1);
    if AllWiped(n1.subs) { PrepareWipeNeat(n1); }
  }

  // ----- finding -----

  /** The state and the hint that comparing an existing state with the file system leaves. */
  lemma {:induction false} ChangesShape(env: Env, h: Hint, s: PathState, f: Found)
    requires h.core == NoFlags && !s.NonExisting? && !f.entry.Other?
    ensures var (h', s') := HandleNodeChanges(env, h, s, f);
      && (FromDirectory(h') <==> s.Directory? && !f.entry.Dir?)
      && (f.policy.NoPolicy? ==> (s'.Directory? <==> s.Directory?))
      && (!f.policy.NoPolicy? ==> (s'.Directory? <==> f.entry.Dir?))
      && h'.core != Exclusive(NotPartOfRepository)
  {
  }

  lemma {:induction false} FoundShape(env: Env, n: Node, f: Found)
    requires Untouched(n) && Shaped(n) && !f.entry.Other?
    requires f.entry.Dir? && f.policy.NoPolicy? ==> HeadState(HandlePolicyChanges(n, f.policy)).Directory?
    ensures var r := HandleFoundNode(env, n, f);
      && ReadyToSettle(r, f) && (f.entry.Dir? ==> !FromDirectory(r.hint))
      && (f.entry.Dir? && !f.policy.Track? ==> HeadState(r).Directory?)
      && r.subs == HandlePolicyChanges(n, f.policy).subs
  {
    UntouchedSubs(n);
    PolicyNeat(n, f.policy);
    PolicyChangeOk(n, f.policy);
    var n1 := HandlePolicyChanges(n, f.policy);
    assert n1.hint.core == NoFlags;
    if !n1.history[0].state.NonExisting? {
      ChangesShape(env, n1.hint, n1.history[0].state, f);
    }
  }

  lemma {:induction false} NewShape(f: Found)
    requires !f.entry.Other?
    ensures ReadyToSettle(NewNode(f), f)
  {
  }

  /** Siblings known to a listing are wiped or untouched with a proper shape. */
  ghost predicate Approachable(ns: seq<Node>, fs: seq<Found>) {
    forall i :: 0 <= i < |fs| && Lookup(ns, fs[i].path).Some? ==>
      var n := Lookup(ns, fs[i].path).value; Wiped(n) || (Untouched(n) && Shaped(n))
  }

  lemma {:induction false} MergeOneNeat(env: Env, ns: seq<Node>, f: Found)
    requires AllNeatInPass(ns) && DistinctPaths(f.children) && SafeOne(env, ns, f) && TypedOne(ns, f)
    requires Approachable(ns, [f])
    ensures AllNeatInPass(MergeOne(env, ns, f))
    decreases f
  {
    if !f.entry.Other? {
      var i := IndexOf(ns, f.path);
      assert [f][0] == f;
      var n := if i == |ns| then NewNode(f) else HandleFoundNode(env, ns[i], f);
      if i == |ns| { NewShape(f); } else { FoundShape(env, ns[i], f); }
      if f.entry.Dir? {
        if i == |ns| {
          TypedInEmpty(f.children);
        } else {
          InsideApproachable(env, ns[i], f);
        }
        MergeAllNeat(env, n.subs, f.children);
      }
      var inside := MergeInside(env, n, f);
      assert ReadyToSettle(inside, f);
      CompleteNeat(env, inside, f);
    }
  }

  lemma {:induction false} TypedInEmpty(fs: seq<Found>)
    ensures TypedAll([], fs)
  {
    if fs != [] { TypedInEmpty(fs[1..]); }
  }

  lemma {:induction false} InsideApproachable(env: Env, n: Node, f: Found)
    requires Untouched(n) && Shaped(n) && f.entry.Dir? && Typed(n, f)
    requires DistinctPaths(f.children) && SafeInside(env, HandleFoundNode(env, n, f), f)
    ensures var r := HandleFoundNode(env, n, f);
      Approachable(r.subs, f.children) && TypedAll(r.subs, f.children)
  {
    var r := HandleFoundNode(env, n, f);
    if WipesSubnodes(n, f.policy) {
      assert r.subs == WipeAll(n.subs);
      WipeAllDisciplined(n.subs);
      SafeAmongWiped(env, r.subs, f.children);
      NoneKnownIsTyped(r.subs, f.children);
    } else {
      assert r.subs == n.subs;
      UntouchedSubs(n);
    }
  }

  lemma {:induction false} NoneKnownIsTyped(ns: seq<Node>, fs: seq<Found>)
    requires NoneKnown(ns, fs)
    ensures TypedAll(ns, fs)
  {
    if fs != [] { NoneKnownIsTyped(ns, fs[1..]); }
  }

  lemma {:induction false} TypedAgrees(ms: seq<Node>, ns: seq<Node>, fs: seq<Found>)
    requires SameLookups(ms, ns, fs)
    ensures TypedAll(ms, fs) == TypedAll(ns, fs)
  {
    if fs != [] {
      assert Lookup(ms, fs[0].path) == Lookup(ns, fs[0].path);
      assert forall i :: 0 <= i < |fs| - 1 ==> fs[1..][i] == fs[i + 1];
      TypedAgrees(ms, ns, fs[1..]);
    }
  }

  lemma {:induction false} MergeAllNeat(env: Env, ns: seq<Node>, fs: seq<Found>)
    requires AllNeatInPass(ns) && DistinctPaths(fs) && SafeAll(env, ns, fs) && TypedAll(ns, fs)
    requires Approachable(ns, fs)
    ensures AllNeatInPass(MergeAll(env, ns, fs))
    decreases fs
  {
    if fs != [] {
      assert Approachable(ns, [fs[0]]) by { assert [fs[0]][0] == fs[0]; }
      MergeOneNeat(env, ns, fs[0]);
      RestLookups(env, ns, fs);
      TypedAgrees(MergeOne(env, ns, fs[0]), ns, fs[1..]);
      MergeAllNeat(env, MergeOne(env, ns, fs[0]), fs[1..]);
    }
  }

  /** After a pass a wiped node has only wiped descendants, and the proper shape is kept. */
  lemma {:induction false} PassKeepsShape(env: Env, ns: seq<Node>, fs: seq<Found>, root: SearchNode)
    requires AllUntouched(ns) && (forall i :: 0 <= i < |ns| ==> Shaped(ns[i]))
    requires DistinctPaths(fs) && UnblockedAll(ns, fs) && TypedAll(ns, fs)
    ensures AllNeat(InitiateBackup(env, ns, fs, root))
  {
    SafeIffUnblocked(env, ns, fs);
    MergeAllNeat(env, ns, fs);
    var all := MergeAll(env, ns, fs);
    forall i | 0 <= i < |all| ensures Neat(HandleNotFound(env, all[i], Some(root), root.policy)) {
      NotFoundNeat(env, all[i], Some(root), root.policy);
    }
  }

  /** The path count follows: added to the old count, the changes of a pass give the number of
      nodes that are written. */
  lemma {:induction false} PathCountIsEmitted(env: Env, ns: seq<Node>, fs: seq<Found>, root: SearchNode)
    requires AllUntouched(ns) && (forall i :: 0 <= i < |ns| ==> Shaped(ns[i]))
    requires DistinctPaths(fs) && UnblockedAll(ns, fs) && TypedAll(ns, fs)
    ensures Emitted(ns) + InitiateDelta(env, ns, fs, root, Total) == Emitted(InitiateBackup(env, ns, fs, root))
  {
    PassKeepsShape(env, ns, fs, root);
    SafeIffUnblocked(env, ns, fs);
    PassConservesCounts(env, ns, fs, root, Total);
    FreshShapedNeat(ns);
    EmittedIsTally(ns);
    EmittedIsTally(InitiateBackup(env, ns, fs, root));
  }

  // ----- where closure fails -----

  /** A removed path that lost its policy, is not tracked, is not a directory, yet has subnodes. */
  predicate Stranded(n: Node, policy: Policy) {
    policy.NoPolicy? && !n.policy.Track? && !HeadState(n).Directory? && n.subs != []
  }

  /** Handling a removed path keeps wiping downward closed exactly when nothing is stranded. */
  lemma {:induction false} RemovedClosedIff(n: Node, policy: Policy)
    requires Untouched(n)
    ensures Closed(HandleRemovedPath(n, policy)) <==> !Stranded(n, policy)
  {
    var n1 := HandlePolicyChanges(n, policy);
    var r := HandleRemovedPath(n, policy);
    UntouchedSubs(n);
    PolicyChangeOk(n, policy);
    forall i | 0 <= i < |n.subs|
      ensures Closed(n.subs[i]) && !Wiped(n.subs[i]) && DeepWiped(WipeRec(n.subs[i])) && Closed(WipeRec(n.subs[i]))
    {
      FreshIsClosed(n.subs[i]);
      WipeRecDeep(n.subs[i]);
    }
    assert n1.subs == n.subs || n1.subs == WipeAll(n.subs);
    assert Closed(n1);
    if policy.Mirror? {
      WipeRecDeep(n1);
    } else if policy.NoPolicy? && (n1.subs == [] || !HeadState(n1).Directory?) {
      if Stranded(n, policy) {
        assert r.subs == n.subs && !DeepWiped(r.subs[0]);
      } else if n1.subs != [] {
        assert WipesSubnodes(n, policy);
      }
    } else {
      MarkClosed(n1, true);
    }
  }

  lemma {:induction false} MarkClosed(n: Node, extend: bool)
    requires Closed(n)
    ensures Closed(MarkRemovedRec(n, extend))
    decreases n
  {
    if !Wiped(n) {
      forall i | 0 <= i < |n.subs| ensures Closed(MarkRemovedRec(n, extend).subs[i]) {
        MarkClosed(n.subs[i], ExtendBelow(n, extend));
      }
    }
  }

  /** A shaped tree strands nothing. */
  lemma {:induction false} ShapedNotStranded(n: Node, policy: Policy)
    requires Fresh(n) && Shaped(n)
    ensures !Stranded(n, policy)
  {
    if n.subs != [] { FreshIsClosed(n.subs[0]); }
  }
}
