/** Backups with a changed config: what becomes of the history of a path whose policy may be another one than
    before, in a directory that is found. */
module PolicyChange {
  import opened Data
  import opened Str
  import opened Metadata
  import opened Backup
  import opened BackupFrame
  import opened RefCountsExact
  import opened History
  import opened Wiping
  import opened FixedConfig
  import opened Stock
  import opened Chains
  import Stranding

  /** What is left of a history when its path gets a policy: of a tracked one only the newest existing point,
      if the path is tracked no longer. */
  function Carried(t: Node, policy: Policy): seq<Point>
    requires |t.history| > 1 || (t.history != [] && !t.history[0].state.NonExisting?)
  {
    if t.policy.Track? && !policy.Track? then [if t.history[0].state.NonExisting? then t.history[1] else t.history[0]]
    else t.history
  }

  /** Without policy a path only stays for what is below it. */
  predicate OnlyWiped(f: Found, r: Node) { f.policy.NoPolicy? && forall i :: 0 <= i < |r.subs| ==> Wiped(r.subs[i]) }

  /** A path that was found under some policy. */
  ghost predicate FoundAs(env: Env, t: Node, f: Found, r: Node)
    requires |t.history| > 1 || (t.history != [] && !t.history[0].state.NonExisting?)
  {
    var h := Carried(t, f.policy);
    && r.policy == f.policy && (Wiped(r) <==> OnlyWiped(f, r))
    && if h[0].state.NonExisting? then r.history == [Point(Current, StateOf(f.entry))] + h
       else
         var (hint, s) := HandleNodeChanges(env, NoHint, h[0].state, f);
         if f.policy.Track? then r.history == if hint.core == NoFlags then h else [Point(Current, s)] + h
         else r.history == [Point(if hint.core == NoFlags && !f.policy.NoPolicy? then h[0].backup else Current, s)]
  }

  /** A path that was not found, and that the config gives a policy, or none at all. */
  ghost predicate MissingAs(t: Node, policy: Option<Policy>, r: Node)
    requires |t.history| > 1 || (t.history != [] && !t.history[0].state.NonExisting?)
  {
    match policy
    case None => DeepWiped(r)
    case Some(p) =>
      var h := Carried(t, p);
      if p.Mirror? then DeepWiped(r)
      else if p.NoPolicy? && (t.subs == [] || !h[0].state.Directory?) then Wiped(r)
      else !Wiped(r) && r.history == if p.Track? && !h[0].state.NonExisting? then [Point(Current, NonExisting)] + h else h
  }

  lemma {:induction false} UntouchedHistory(t: Node)
    requires Untouched(t)
    ensures |t.history| > 1 || (t.history != [] && !t.history[0].state.NonExisting?)
    ensures t.history != [] && !Wiped(t) && t.hint == NoHint
    ensures !t.policy.Track? ==> |t.history| == 1 && !t.history[0].state.NonExisting?
    ensures t.history[0].state.NonExisting? ==> |t.history| > 1 && !t.history[1].state.NonExisting?
  {
    UntouchedSubs(t);
  }

  lemma {:induction false} FlagBits(g: Hint, h: Hint, c: bool, f: Flag)
    requires g.core == h.core
    ensures FlagIf(g, c, f).core == FlagIf(h, c, f).core
  {
  }

  lemma {:induction false} HasByCore(g: Hint, h: Hint, f: Flag)
    requires g.core == h.core
    ensures Has(g, f) == Has(h, f) && SetFlag(g, f).core == SetFlag(h, f).core
  {
  }

  lemma {:induction false} FileBits(env: Env, g: Hint, h: Hint, i: FileInfo, e: Entry)
    requires e.File? && g.core == h.core
    ensures ApplyFileChanges(env, g, i, e).0.core == ApplyFileChanges(env, h, i, e).0.core
    ensures ApplyFileChanges(env, g, i, e).1 == ApplyFileChanges(env, h, i, e).1
  {
    hide Identity, FlagIf, SetFlag, Has;
    var g1, h1 := FlagIf(g, i.mode != e.mode, PermissionsChanged), FlagIf(h, i.mode != e.mode, PermissionsChanged);
    FlagBits(g, h, i.mode != e.mode, PermissionsChanged);
    var g2, h2 := FlagIf(g1, i.mtime != e.mtime, TimestampChanged), FlagIf(h1, i.mtime != e.mtime, TimestampChanged);
    FlagBits(g1, h1, i.mtime != e.mtime, TimestampChanged);
    HasByCore(g2, h2, TimestampChanged);
    HasByCore(g2, h2, ContentChanged);
    HasByCore(SetFlag(g2, ContentChanged), SetFlag(h2, ContentChanged), FreshHash);
  }

  lemma {:induction false} NodeBits(env: Env, g: Hint, h: Hint, s: PathState, e: Entry)
    requires g.core == h.core
    ensures ApplyNodeChanges(env, g, s, e).0.core == ApplyNodeChanges(env, h, s, e).0.core
    ensures ApplyNodeChanges(env, g, s, e).1 == ApplyNodeChanges(env, h, s, e).1
  {
    hide ApplyFileChanges;
    if SameType(s, e) && !s.NonExisting? {
      var c := s.uid != e.uid || s.gid != e.gid;
      FlagBits(g, h, c, OwnerChanged);
      if s.RegularFile? { FileBits(env, FlagIf(g, c, OwnerChanged), FlagIf(h, c, OwnerChanged), s.info, e); }
    }
  }

  /** The comparison does not look at the bits for policies. */
  lemma {:induction false} BitsDoNotMatter(env: Env, h: Hint, s: PathState, f: Found)
    requires h.core == NoFlags
    ensures HandleNodeChanges(env, h, s, f).1 == HandleNodeChanges(env, NoHint, s, f).1
    ensures HandleNodeChanges(env, h, s, f).0.core == HandleNodeChanges(env, NoHint, s, f).0.core
  {
    hide ApplyNodeChanges;
    var g1, h1 := HandleFiletypeChanges(NoHint, s, f.entry), HandleFiletypeChanges(h, s, f.entry);
    assert g1.core == h1.core;
    NodeBits(env, g1, h1, s, f.entry);
  }

  lemma {:induction false} CarriedIsKept(t: Node, policy: Policy)
    requires Untouched(t)
    ensures |t.history| > 1 || (t.history != [] && !t.history[0].state.NonExisting?)
    ensures var r := HandlePolicyChanges(t, policy);
      && r.history == Carried(t, policy) && r.policy == policy && r.hint.core == NoFlags && r.path == t.path
      && r.subs == (if WipesSubnodes(t, policy) then WipeAll(t.subs) else t.subs)
  {
    UntouchedHistory(t);
    assert PopRemoved(t.history)[..1] == if t.history[0].state.NonExisting? then [t.history[1]] else [t.history[0]];
  }

  lemma {:induction false} FoundTurns(env: Env, t: Node, f: Found)
    requires Untouched(t) && !f.entry.Other? && t.path == f.path
    ensures |t.history| > 1 || (t.history != [] && !t.history[0].state.NonExisting?)
    ensures FoundAs(env, t, f, Processed(env, Some(t), f))
  {
    hide HandlePolicyChanges, HandleNodeChanges, SettleSubnodes, MergeAll;
    UntouchedHistory(t);
    CarriedIsKept(t, f.policy);
    var n := HandlePolicyChanges(t, f.policy);
    BitsDoNotMatter(env, n.hint, n.history[0].state, f);
    assert !f.policy.Track? ==> n.history[1..] == [];
    Stranding.FoundParts(env, t, f);
    CompletedWipes(env, MergeInside(env, HandleFoundNode(env, t, f), f), f);
  }

  lemma {:induction false} CompletedWipes(env: Env, n: Node, f: Found)
    requires !Wiped(n)
    ensures Wiped(CompleteNode(env, n, f)) <==> OnlyWiped(f, CompleteNode(env, n, f))
  {
    hide SettleSubnodes;
  }

  /** A path that the metadata did not have. */
  lemma {:induction false} NewTurns(env: Env, f: Found)
    ensures var r := Processed(env, None, f);
      && r.path == f.path && r.policy == f.policy && r.history == [Point(Current, StateOf(f.entry))]
      && (Wiped(r) <==> OnlyWiped(f, r))
  {
    hide SettleSubnodes, MergeAll;
  }

  lemma {:induction false} MissingTurns(env: Env, t: Node, parent: Option<SearchNode>, policy: Policy)
    requires Untouched(t)
    ensures |t.history| > 1 || (t.history != [] && !t.history[0].state.NonExisting?)
    ensures MissingAs(t, SupposedPolicy(env, t.path, parent, policy), HandleNotFound(env, t, parent, policy))
  {
    hide SupposedPolicy, HandlePolicyChanges, WipeRec;
    UntouchedHistory(t);
    var p := SupposedPolicy(env, t.path, parent, policy);
    WipeRecDeep(t);
    if p.Some? {
      CarriedIsKept(t, p.value);
      var n := HandlePolicyChanges(t, p.value);
      assert !Wiped(n);
      assert n.subs == [] <==> t.subs == [];
      WipeRecDeep(n);
    }
  }

  // ----- at any depth -----

  /** The rule in the directory of the path. */
  function RuleAbove(rule: Rule, fs: seq<Found>, links: Links): Rule
    requires SeesDirectories(fs, links, |links| - 1)
    decreases |links|
  {
    if |links| == 1 then rule
    else var f := FindFound(fs, links[0]).value; RuleAbove(Rule(f.node, f.policy), f.children, links[1..])
  }

  /** No directory above the path gets a policy under which its subnodes are wiped. */
  predicate Calm(ns: seq<Node>, fs: seq<Found>, links: Links)
    requires SeesDirectories(fs, links, |links| - 1)
    decreases |links|
  {
    |links| > 1 ==>
      var n, f := Lookup(ns, links[0]), FindFound(fs, links[0]).value;
      n.Some? ==> !WipesSubnodes(n.value, f.policy) && Calm(n.value.subs, f.children, links[1..])
  }

  /** What becomes of a known path under whatever policies it had and gets. */
  ghost predicate Turns(env: Env, t: Node, f: Option<Found>, above: Rule, r: Node) {
    && (|t.history| > 1 || (t.history != [] && !t.history[0].state.NonExisting?))
    && (f.Some? ==> FoundAs(env, t, f.value, r))
    && (f.None? ==> MissingAs(t, SupposedPolicy(env, t.path, above.node, above.policy), r))
  }

  lemma {:induction false} AnyPass(env: Env, rule: Rule, ns: seq<Node>, fs: seq<Found>, links: Links)
    requires AllUntouched(ns) && DistinctPaths(fs) && SeesDirectories(fs, links, |links| - 1)
    requires Locate(ns, links).Some? && Calm(ns, fs, links)
    ensures var rs := HandleNotFoundAll(env, MergeAll(env, ns, fs), rule.node, rule.policy);
      Locate(rs, links).Some? && Turns(env, Locate(ns, links).value, Sight(fs, links), RuleAbove(rule, fs, links), Locate(rs, links).value)
    decreases |links|
  {
    hide Processed, HandleNotFound, SupposedPolicy, DistinctPaths, MissingAs, FoundAs, FindFound;
    var p := links[0];
    ListedLookup(env, rule, ns, fs, p);
    var n := Lookup(ns, p).value;
    if |links| == 1 {
      if FindFound(fs, p).None? {
        MissingTurns(env, n, rule.node, rule.policy);
      } else {
        FindFoundIn(fs, p);
        FoundTurns(env, n, FindFound(fs, p).value);
      }
    } else {
      var f := FindFound(fs, p).value;
      FindFoundIn(fs, p);
      assert DistinctPaths(f.children) by { ChildrenAreDistinct(fs, f); }
      UntouchedSubs(n);
      InsideTurns(env, n, f);
      AnyPass(env, Rule(f.node, f.policy), n.subs, f.children, links[1..]);
    }
  }

  lemma {:induction false} ChildrenAreDistinct(fs: seq<Found>, f: Found)
    requires DistinctPaths(fs) && f in fs
    ensures DistinctPaths(f.children)
  {
  }

  lemma {:induction false} InsideTurns(env: Env, n: Node, f: Found)
    requires Untouched(n) && f.entry.Dir? && !WipesSubnodes(n, f.policy)
    ensures Processed(env, Some(n), f).subs == HandleNotFoundAll(env, MergeAll(env, n.subs, f.children), f.node, f.policy)
  {
    hide HandleFoundNode, MergeAll, HandleNotFoundAll, SettleSubnodes;
    var r := HandleFoundNode(env, n, f);
    Stranding.FoundParts(env, n, f);
    DirectoryCompleted(env, MergeInside(env, r, f), f);
    DirectorySettles(env, r, f);
  }
}
