/** When wiping stays downward closed over a whole pass: exactly if no removed path is stranded, that is,
    wiped although it has subnodes that stay. And a pass on which one is. */
module Stranding {
  import opened Data
  import opened Str
  import opened Metadata
  import opened Backup
  import opened BackupFrame
  import opened RefCounts
  import opened RefCountsExact
  import opened History
  import opened Wiping
  import opened FixedConfig
  import opened Chains
  import opened Codec

  /** No path stands twice in a list of siblings. */
  predicate DistinctTree(ns: seq<Node>)
    decreases ns
  {
    && (forall i, j :: 0 <= i < j < |ns| ==> ns[i].path != ns[j].path)
    && (forall i :: 0 <= i < |ns| ==> DistinctTree(ns[i].subs))
  }

  ghost predicate AllClosed(ns: seq<Node>) { forall i :: 0 <= i < |ns| ==> Closed(ns[i]) }

  /** The state that a found path is compared with: a removal is dropped if the path is tracked no longer. */
  function LastState(n: Node, policy: Policy): PathState {
    HeadState(if n.policy.Track? && n.policy != policy then n.(history := PopRemoved(n.history)) else n)
  }

  /** Whether the subnodes of a found path that were not found are handled as removed paths, rather than
      marked or wiped together with it: they are not if the policy change wipes them, if a directory has
      become something else, or if the path is tracked and now a file. */
  predicate HandlesRest(n: Node, f: Found) {
    && !WipesSubnodes(n, f.policy)
    && !(LastState(n, f.policy).Directory? && !f.entry.Dir?)
    && !(f.policy.Track? && f.entry.File?)
  }

  /** A path that is not found is removed with a policy that strands its subnodes. */
  predicate RemovedStranded(env: Env, n: Node, rule: Rule) {
    var p := SupposedPolicy(env, n.path, rule.node, rule.policy);
    p.Some? && Stranded(n, p.value)
  }

  function Inside(f: Found): seq<Found> { if f.entry.Dir? then f.children else [] }

  /** Whether a pass strands the subnodes of some removed path, told from the loaded tree and the results. */
  predicate SomeStranded(env: Env, ns: seq<Node>, fs: seq<Found>, rule: Rule)
    decreases ns
  {
    exists i :: 0 <= i < |ns| &&
      var f := FindFound(fs, ns[i].path);
      if f.None? then RemovedStranded(env, ns[i], rule)
      else HandlesRest(ns[i], f.value) && SomeStranded(env, ns[i].subs, Inside(f.value), Rule(f.value.node, f.value.policy))
  }

  /** What happens to one node, found or not. */
  predicate StrandedAt(env: Env, n: Node, fs: seq<Found>, rule: Rule) {
    var f := FindFound(fs, n.path);
    if f.None? then RemovedStranded(env, n, rule)
    else HandlesRest(n, f.value) && SomeStranded(env, n.subs, Inside(f.value), Rule(f.value.node, f.value.policy))
  }

  /** The siblings after a listing and the missing paths were handled. */
  function Handled(env: Env, rule: Rule, ns: seq<Node>, fs: seq<Found>): seq<Node> {
    HandleNotFoundAll(env, MergeAll(env, ns, fs), rule.node, rule.policy)
  }

  // ----- parts -----

  lemma {:induction false} DistinctIsSole(ns: seq<Node>, path: Bytes)
    requires DistinctTree(ns)
    ensures Sole(ns, path)
  {
  }

  /** In a list without double paths, every node is looked up by its path. */
  lemma {:induction false} ClosedByLookup(ns: seq<Node>, i: nat)
    requires i < |ns| && Sole(ns, ns[i].path)
    ensures Lookup(ns, ns[i].path) == Some(ns[i])
  {
    IndexOfIs(ns, i);
  }

  lemma {:induction false} CompleteClosed(env: Env, n: Node, f: Found)
    requires !Wiped(n)
    ensures Closed(CompleteNode(env, n, f)) <==> AllClosed(SettleSubnodes(env, n, f))
  {
    var subs := SettleSubnodes(env, n, f);
    var r := CompleteNode(env, n, f);
    assert r.subs == subs;
    if Wiped(r) && AllClosed(subs) {
      forall i | 0 <= i < |subs| ensures DeepWiped(subs[i]) { WipedClosedIsDeep(subs[i]); }
    }
  }

  lemma {:induction false} WipedClosedIsDeep(n: Node)
    requires Wiped(n) && Closed(n)
    ensures DeepWiped(n)
  {
  }

  lemma {:induction false} MarkedClosed(ns: seq<Node>, extend: bool)
    requires AllClosed(ns)
    ensures AllClosed(MarkRemovedAll(ns, extend))
  {
    forall i | 0 <= i < |ns| ensures Closed(MarkRemovedRec(ns[i], extend)) { MarkClosed(ns[i], extend); }
  }

  lemma {:induction false} WipedClosed(ns: seq<Node>)
    ensures AllClosed(WipeAll(ns)) && AllWiped(WipeAll(ns))
  {
    forall i | 0 <= i < |ns| ensures Closed(WipeRec(ns[i])) && Wiped(WipeRec(ns[i])) { WipeRecDeep(ns[i]); }
  }

  lemma {:induction false} UntouchedClosed(ns: seq<Node>)
    requires AllUntouched(ns)
    ensures AllClosed(ns)
  {
    forall i | 0 <= i < |ns| ensures Closed(ns[i]) { FreshIsClosed(ns[i]); }
  }

  // ----- new nodes -----

  /** A path that the metadata did not have, with everything found inside it, is closed. */
  lemma {:induction false} NewIsClosed(env: Env, f: Found)
    requires !f.entry.Other? && DistinctPaths(f.children)
    ensures Closed(Processed(env, None, f))
    decreases f
  {
    hide CompleteNode, MergeAll, SettleSubnodes, DistinctPaths, HandleNotFound;
    var n := MergeInside(env, NewNode(f), f);
    assert !Wiped(n) && n.hint == NewNode(f).hint;
    if f.entry.Dir? { NewListIsClosed(env, [], f.children, Rule(f.node, f.policy)); }
    assert SettleSubnodes(env, n, f) == Handled(env, Rule(f.node, f.policy), [], Inside(f)) by { NewSettles(env, f); }
    assert AllClosed(SettleSubnodes(env, n, f)) by { if !f.entry.Dir? { NothingHandled(env, Rule(f.node, f.policy)); } }
    CompleteClosed(env, n, f);
  }

  lemma {:induction false} NewSettles(env: Env, f: Found)
    requires !f.entry.Other?
    ensures SettleSubnodes(env, MergeInside(env, NewNode(f), f), f) == Handled(env, Rule(f.node, f.policy), [], Inside(f))
  {
    hide HandleNotFound;
    if f.entry.Dir? {
    } else {
      assert MergeAll(env, [], []) == [];
      assert MarkRemovedAll([], false) == [];
      assert HandleNotFoundAll(env, [], f.node, f.policy) == [];
    }
  }

  lemma {:induction false} NothingHandled(env: Env, rule: Rule)
    ensures Handled(env, rule, [], []) == []
  {
  }

  /** A listing among nodes none of which it finds, and which are closed whatever happens to them. */
  lemma {:induction false} NewListIsClosed(env: Env, ns: seq<Node>, fs: seq<Found>, rule: Rule)
    requires DistinctPaths(fs) && (forall path :: Sole(ns, path))
    requires forall path {:trigger Lookup(ns, path)} :: Lookup(ns, path).Some? ==>
      FindFound(fs, path).None? && Closed(HandleNotFound(env, Lookup(ns, path).value, rule.node, rule.policy))
    ensures AllClosed(Handled(env, rule, ns, fs))
    decreases fs
  {
    hide Processed, HandleNotFound, MergeAll;
    var rs := Handled(env, rule, ns, fs);
    forall i | 0 <= i < |rs| ensures Closed(rs[i]) {
      var path := rs[i].path;
      ListedLookup(env, rule, ns, fs, path);
      ClosedByLookup(rs, i);
      if FindFound(fs, path).Some? {
        FindFoundIn(fs, path);
        var f := FindFound(fs, path).value;
        FoundChildren(fs, path);
        assert Lookup(ns, path).None?;
        NewIsClosed(env, f);
      }
    }
  }

  lemma {:induction false} FoundChildren(fs: seq<Found>, path: Bytes)
    requires DistinctPaths(fs) && FindFound(fs, path).Some?
    ensures var f := FindFound(fs, path).value; DistinctPaths(f.children) && !f.entry.Other? && f.path == path && f in fs
  {
    FindFoundIn(fs, path);
    var f := FindFound(fs, path).value;
    var i :| 0 <= i < |fs| && fs[i] == f;
    assert DistinctPaths(fs[i].children);
  }

  // ----- found nodes -----

  lemma {:induction false} FoundParts(env: Env, n: Node, f: Found)
    requires Untouched(n) && !f.entry.Other?
    ensures var r := HandleFoundNode(env, n, f);
      && !Wiped(r) && r.subs == (if WipesSubnodes(n, f.policy) then WipeAll(n.subs) else n.subs)
      && (f.entry.Dir? ==> !FromDirectory(r.hint) && !(f.policy.Track? && HeadState(r).RegularFile?))
      && (HandlesRest(n, f) <==> !WipesSubnodes(n, f.policy) && !FromDirectory(r.hint) && !(f.policy.Track? && HeadState(r).RegularFile?))
  {
    hide HandleNodeChanges;
    UntouchedSubs(n);
    FoundOk(env, n, f);
    PolicyChangeOk(n, f.policy);
    var n1 := HandlePolicyChanges(n, f.policy);
    assert HeadState(n1) == LastState(n, f.policy);
    if !HeadState(n1).NonExisting? { ChangesType(env, n1.hint, HeadState(n1), f); }
  }

  /** How a comparison shows in the hint, and in the type of the state. */
  lemma {:induction false} ChangesType(env: Env, h: Hint, s: PathState, f: Found)
    requires h.core == NoFlags && !s.NonExisting? && !f.entry.Other?
    ensures var (h', s') := HandleNodeChanges(env, h, s, f);
      && (FromDirectory(h') <==> s.Directory? && !f.entry.Dir?)
      && (f.policy.Track? ==> (s'.RegularFile? <==> f.entry.File?))
      && (h'.core == NoFlags ==> (s'.RegularFile? <==> s.RegularFile?))
  {
  }

  /** The subnodes of a found path, as a list that is handled on its own. */
  lemma {:induction false} RestSettles(env: Env, n: Node, f: Found)
    requires Untouched(n) && !f.entry.Other? && HandlesRest(n, f)
    ensures SettleSubnodes(env, MergeInside(env, HandleFoundNode(env, n, f), f), f) == Handled(env, Rule(f.node, f.policy), n.subs, Inside(f))
  {
    hide HandleFoundNode, HandleNotFound, WipesSubnodes;
    FoundParts(env, n, f);
  }

  lemma {:induction false} SoleAfterWipe(ns: seq<Node>, path: Bytes)
    requires Sole(ns, path)
    ensures Sole(WipeAll(ns), path)
    ensures Lookup(WipeAll(ns), path) == if Lookup(ns, path).None? then None else Some(WipeRec(Lookup(ns, path).value))
  {
    forall i | 0 <= i < |ns| ensures WipeRec(ns[i]).path == ns[i].path { WipeKeepsPath(ns[i]); }
    IndexOfSamePaths(WipeAll(ns), ns, path);
  }

  /** Everything else that can happen to the subnodes of a found path keeps them closed. */
  lemma {:induction false} OthersSettleClosed(env: Env, n: Node, f: Found)
    requires Untouched(n) && !f.entry.Other? && DistinctTree(n.subs) && DistinctPaths(f.children) && Unblocked(n, f)
    requires !HandlesRest(n, f)
    ensures AllClosed(SettleSubnodes(env, MergeInside(env, HandleFoundNode(env, n, f), f), f))
  {
    hide HandleFoundNode, HandleNotFound, WipesSubnodes, MarkRemovedRec, WipeRec, UnblockedAll, DistinctPaths, DistinctTree, MergeAll;
    FoundParts(env, n, f);
    var r := HandleFoundNode(env, n, f);
    UntouchedSubs(n);
    UntouchedClosed(n.subs);
    WipedClosed(n.subs);
    WipedClosed(r.subs);
    MarkedClosed(r.subs, f.policy.Track?);
    MarkedClosed(r.subs, false);
    if !FromDirectory(r.hint) && !(f.policy.Track? && HeadState(r).RegularFile?) {
      var rule := Rule(f.node, f.policy);
      if f.entry.Dir? {
        WipedListing(env, n.subs, f.children, rule);
      } else {
        WipedStay(env, n.subs, rule);
      }
    }
  }

  lemma {:induction false} WipedStay(env: Env, ns: seq<Node>, rule: Rule)
    ensures HandleNotFoundAll(env, WipeAll(ns), rule.node, rule.policy) == WipeAll(ns)
  {
    WipedClosed(ns);
    forall i | 0 <= i < |ns| ensures HandleNotFound(env, WipeAll(ns)[i], rule.node, rule.policy) == WipeAll(ns)[i] {
      assert Wiped(WipeAll(ns)[i]);
    }
  }

  lemma {:induction false} WipedListing(env: Env, ns: seq<Node>, fs: seq<Found>, rule: Rule)
    requires DistinctTree(ns) && DistinctPaths(fs) && NoneKnown(ns, fs)
    ensures AllClosed(Handled(env, rule, WipeAll(ns), fs))
  {
    hide WipeRec, DistinctPaths, Closed, Lookup;
    forall path
      ensures Sole(WipeAll(ns), path)
      ensures Lookup(WipeAll(ns), path).Some? ==>
        FindFound(fs, path).None? && Closed(HandleNotFound(env, Lookup(WipeAll(ns), path).value, rule.node, rule.policy))
    {
      DistinctIsSole(ns, path);
      SoleAfterWipe(ns, path);
      if Lookup(ns, path).Some? {
        var w := WipeRec(Lookup(ns, path).value);
        WipeRecDeep(Lookup(ns, path).value);
        assert HandleNotFound(env, w, rule.node, rule.policy) == w;
        UnknownIsNotFound(ns, fs, path);
      }
    }
    NewListIsClosed(env, WipeAll(ns), fs, rule);
  }

  lemma {:induction false} UnknownIsNotFound(ns: seq<Node>, fs: seq<Found>, path: Bytes)
    requires NoneKnown(ns, fs) && Lookup(ns, path).Some?
    ensures FindFound(fs, path).None?
  {
    hide Lookup;
    if fs != [] { UnknownIsNotFound(ns, fs[1..], path); }
  }

  // ----- a whole listing -----

  /** Siblings stay closed exactly if nothing is stranded among and below them. */
  lemma {:induction false} ClosedIffNothingStranded(env: Env, rule: Rule, ns: seq<Node>, fs: seq<Found>)
    requires AllUntouched(ns) && DistinctTree(ns) && DistinctPaths(fs) && UnblockedAll(ns, fs)
    ensures AllClosed(Handled(env, rule, ns, fs)) <==> !SomeStranded(env, ns, fs, rule)
    decreases ns, 1
  {
    hide Processed, HandleNotFound, MergeAll, Closed, DistinctPaths, HandlesRest, RemovedStranded, Unblocked;
    var rs := Handled(env, rule, ns, fs);
    forall i | 0 <= i < |ns|
      ensures exists k :: 0 <= k < |rs| && rs[k].path == ns[i].path && (Closed(rs[k]) <==> !StrandedAt(env, ns[i], fs, rule))
    {
      var path := ns[i].path;
      DistinctIsSole(ns, path);
      ClosedByLookup(ns, i);
      ListedLookup(env, rule, ns, fs, path);
      HandledClosed(env, rule, ns, fs, i);
      var k := IndexOf(rs, path);
      assert rs[k] == Lookup(rs, path).value && rs[k].path == path;
    }
    forall k | 0 <= k < |rs|
      ensures Closed(rs[k]) || exists i :: 0 <= i < |ns| && StrandedAt(env, ns[i], fs, rule)
    {
      var path := rs[k].path;
      DistinctIsSole(ns, path);
      ListedLookup(env, rule, ns, fs, path);
      ClosedByLookup(rs, k);
      if Lookup(ns, path).Some? {
        var i := IndexOf(ns, path);
        HandledClosed(env, rule, ns, fs, i);
        assert Closed(rs[k]) <==> !StrandedAt(env, ns[i], fs, rule);
      } else {
        FoundChildren(fs, path);
        NewIsClosed(env, FindFound(fs, path).value);
      }
    }
    StrandedByNode(env, ns, fs, rule);
  }

  lemma {:induction false} StrandedByNode(env: Env, ns: seq<Node>, fs: seq<Found>, rule: Rule)
    ensures SomeStranded(env, ns, fs, rule) <==> exists i :: 0 <= i < |ns| && StrandedAt(env, ns[i], fs, rule)
  {
    hide HandlesRest, RemovedStranded;
  }

  /** What becomes of one sibling. */
  lemma {:induction false} HandledClosed(env: Env, rule: Rule, ns: seq<Node>, fs: seq<Found>, i: nat)
    requires AllUntouched(ns) && DistinctTree(ns) && DistinctPaths(fs) && UnblockedAll(ns, fs) && i < |ns|
    ensures Lookup(Handled(env, rule, ns, fs), ns[i].path).Some?
    ensures Closed(Lookup(Handled(env, rule, ns, fs), ns[i].path).value) <==> !StrandedAt(env, ns[i], fs, rule)
    decreases ns, 0
  {
    hide Processed, HandleNotFound, MergeAll, Closed, DistinctPaths, HandlesRest, RemovedStranded, Unblocked, SomeStranded;
    var n, path := ns[i], ns[i].path;
    DistinctIsSole(ns, path);
    ClosedByLookup(ns, i);
    ListedLookup(env, rule, ns, fs, path);
    if FindFound(fs, path).Some? {
      FoundChildren(fs, path);
      UnblockedFound(ns, fs, path);
      FoundClosed(env, n, FindFound(fs, path).value);
    } else {
      MissingClosed(env, n, rule);
    }
  }

  lemma {:induction false} UnblockedFound(ns: seq<Node>, fs: seq<Found>, path: Bytes)
    requires UnblockedAll(ns, fs) && FindFound(fs, path).Some? && Lookup(ns, path).Some?
    ensures Unblocked(Lookup(ns, path).value, FindFound(fs, path).value)
  {
    hide Unblocked, Lookup;
    if !(fs[0].path == path && !fs[0].entry.Other?) { UnblockedFound(ns, fs[1..], path); }
  }

  lemma {:induction false} MissingClosed(env: Env, n: Node, rule: Rule)
    requires Untouched(n)
    ensures Closed(HandleNotFound(env, n, rule.node, rule.policy)) <==> !RemovedStranded(env, n, rule)
  {
    hide SupposedPolicy, HandleRemovedPath, WipeRec, Stranded, Closed;
    var p := SupposedPolicy(env, n.path, rule.node, rule.policy);
    if p.Some? { RemovedClosedIff(n, p.value); } else { WipeRecDeep(n); }
  }

  lemma {:induction false} FoundClosed(env: Env, n: Node, f: Found)
    requires Untouched(n) && !f.entry.Other? && DistinctTree(n.subs) && DistinctPaths(f.children) && Unblocked(n, f)
    ensures Closed(Processed(env, Some(n), f)) <==>
      !(HandlesRest(n, f) && SomeStranded(env, n.subs, Inside(f), Rule(f.node, f.policy)))
    decreases n.subs, 2
  {
    hide HandleFoundNode, CompleteNode, SettleSubnodes, MergeAll, Closed, DistinctPaths, SomeStranded, UnblockedAll, WipesSubnodes;
    FoundParts(env, n, f);
    var m := MergeInside(env, HandleFoundNode(env, n, f), f);
    CompleteClosed(env, m, f);
    if HandlesRest(n, f) {
      RestSettles(env, n, f);
      UntouchedSubs(n);
      assert DistinctPaths(Inside(f)) && UnblockedAll(n.subs, Inside(f)) by { NothingFound(n.subs); }
      ClosedIffNothingStranded(env, Rule(f.node, f.policy), n.subs, Inside(f));
    } else {
      OthersSettleClosed(env, n, f);
    }
  }

  lemma {:induction false} NothingFound(ns: seq<Node>)
    ensures DistinctPaths([]) && UnblockedAll(ns, [])
  {
  }

  // ----- the path count -----

  lemma {:induction false} NoLiveNodes(ns: seq<Node>)
    ensures TallyAll(ns, Total) == 0 <==> forall i :: 0 <= i < |ns| ==> DeepWiped(ns[i])
    decreases ns
  {
    if ns != [] {
      NoLiveNodes(ns[0].subs);
      NoLiveNodes(ns[1..]);
      assert DeepWiped(ns[0]) <==> Tally(ns[0], Total) == 0;
      assert forall i :: 0 <= i < |ns[1..]| ==> ns[1..][i] == ns[i + 1];
      assert (forall i :: 0 <= i < |ns| ==> DeepWiped(ns[i])) <==> DeepWiped(ns[0]) && forall i :: 0 <= i < |ns[1..]| ==> DeepWiped(ns[1..][i]);
    }
  }

  /** The writer emits every live node exactly if wiping is downward closed, and fewer otherwise. */
  lemma {:induction false} EmittedIffClosed(ns: seq<Node>)
    ensures Emitted(ns) <= TallyAll(ns, Total)
    ensures Emitted(ns) == TallyAll(ns, Total) <==> AllClosed(ns)
    decreases ns
  {
    hide DeepWiped;
    if ns != [] {
      NoLiveNodes(ns[0].subs);
      EmittedIffClosed(ns[0].subs);
      EmittedIffClosed(ns[1..]);
      DeepIsClosed(ns[0].subs);
      assert Closed(ns[0]) <==> if Wiped(ns[0]) then TallyAll(ns[0].subs, Total) == 0 else AllClosed(ns[0].subs);
      assert forall i :: 0 <= i < |ns[1..]| ==> ns[1..][i] == ns[i + 1];
      assert AllClosed(ns) <==> Closed(ns[0]) && AllClosed(ns[1..]);
    }
  }

  lemma {:induction false} DeepIsClosed(ns: seq<Node>)
    ensures (forall i :: 0 <= i < |ns| ==> DeepWiped(ns[i])) ==> AllClosed(ns)
  {
    if forall i :: 0 <= i < |ns| ==> DeepWiped(ns[i]) {
      forall i | 0 <= i < |ns| ensures Closed(ns[i]) { DeepWipedIsNeat(ns[i]); }
    }
  }

  /** After a pass over a loaded tree wiping is downward closed, and the maintained path count is the
      number of nodes that the writer emits, if and only if no removed path is stranded. */
  lemma {:induction false} PathCountIffNothingStranded(env: Env, ns: seq<Node>, fs: seq<Found>, root: SearchNode)
    requires AllUntouched(ns) && DistinctTree(ns) && DistinctPaths(fs) && UnblockedAll(ns, fs)
    ensures AllClosed(InitiateBackup(env, ns, fs, root)) <==> !SomeStranded(env, ns, fs, RootRule(root))
    ensures Emitted(ns) + InitiateDelta(env, ns, fs, root, Total) == Emitted(InitiateBackup(env, ns, fs, root))
      <==> !SomeStranded(env, ns, fs, RootRule(root))
  {
    hide SomeStranded, AllClosed, DistinctTree, DistinctPaths, UnblockedAll, InitiateDelta, MergeAll, HandleNotFoundAll;
    ClosedIffNothingStranded(env, RootRule(root), ns, fs);
    assert InitiateBackup(env, ns, fs, root) == Handled(env, RootRule(root), ns, fs);
    FreshEverywhere(ns, fs);
    SafeIffUnblocked(env, ns, fs);
    PassConservesCounts(env, ns, fs, root, Total);
    UntouchedClosed(ns);
    EmittedIffClosed(ns);
    EmittedIffClosed(InitiateBackup(env, ns, fs, root));
  }

  lemma {:induction false} FreshEverywhere(ns: seq<Node>, fs: seq<Found>)
    requires AllUntouched(ns)
    ensures AllKnown(ns, fs, Fresh)
  {
    hide Loaded, Fresh, Disciplined;
    forall i | 0 <= i < |fs| && Lookup(ns, fs[i].path).Some? ensures Fresh(Lookup(ns, fs[i].path).value) {
      assert Untouched(ns[IndexOf(ns, fs[i].path)]);
    }
  }
}
