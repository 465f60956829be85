/** One path through a run: what a pass does to the history of a tracked path, whose ancestors are
    tracked as well or always found as directories. */
module Chains {
  import opened Data
  import opened Str
  import opened Metadata
  import opened Backup
  import opened BackupFrame
  import opened RefCountsExact
  import opened History
  import opened Wiping
  import opened FixedConfig
  import opened Stock

  // ----- following a path -----

  /** The paths from a top-level path down to the one of interest. */
  type Links = l: seq<Bytes> | |l| > 0 witness [[]]

  function Locate(ns: seq<Node>, links: Links): Option<Node>
    decreases |links|
  {
    var n :- Lookup(ns, links[0]);
    if |links| == 1 then Some(n) else Locate(n.subs, links[1..])
  }

  function Sight(fs: seq<Found>, links: Links): Option<Found>
    decreases |links|
  {
    var f :- FindFound(fs, links[0]);
    if |links| == 1 then Some(f) else if f.entry.Dir? then Sight(f.children, links[1..]) else None
  }

  /** The history of a path; empty if the metadata does not have the path. */
  function HistoryAt(ns: seq<Node>, links: Links): seq<Point> {
    var n := Locate(ns, links);
    if n.None? then [] else n.value.history
  }

  // ----- hypotheses -----

  /** The config tracks every link. */
  predicate TrackedBy(env: Env, rule: Rule, links: Links)
    decreases |links|
  {
    var r := RuleFor(env, rule, links[0]);
    r.Some? && r.value.policy.Track? && (|links| > 1 ==> TrackedBy(env, r.value, links[1..]))
  }

  /** The config contains the first links with any policy, and tracks the others. */
  predicate CoveredBy(env: Env, rule: Rule, links: Links, dirs: nat)
    decreases |links|
  {
    if dirs == 0 then TrackedBy(env, rule, links)
    else
      var r := RuleFor(env, rule, links[0]);
      r.Some? && |links| > 1 && CoveredBy(env, r.value, links[1..], dirs - 1)
  }

  /** The first links are found as directories. */
  predicate SeesDirectories(fs: seq<Found>, links: Links, dirs: nat)
    decreases |links|
  {
    dirs == 0 ||
    (var f := FindFound(fs, links[0]);
     f.Some? && f.value.entry.Dir? && |links| > 1 && SeesDirectories(f.value.children, links[1..], dirs - 1))
  }

  // ----- what the metadata keeps about such a path -----

  ghost predicate Sole(ns: seq<Node>, path: Bytes) {
    forall i, j :: 0 <= i < |ns| && 0 <= j < |ns| && ns[i].path == path && ns[j].path == path ==> i == j
  }

  /** Every link that the metadata has was last seen missing. */
  predicate Gone(ns: seq<Node>, links: Links)
    decreases |links|
  {
    var n := Lookup(ns, links[0]);
    n.Some? ==> HeadState(n.value).NonExisting? && (|links| > 1 ==> Gone(n.value.subs, links[1..]))
  }

  /** Below anything that was not a directory, everything is recorded as missing. */
  ghost predicate Coherent(ns: seq<Node>, links: Links)
    decreases |links|
  {
    && Sole(ns, links[0])
    && var n := Lookup(ns, links[0]);
    n.Some? && |links| > 1 ==>
      Coherent(n.value.subs, links[1..]) && (!HeadState(n.value).Directory? ==> Gone(n.value.subs, links[1..]))
  }

  ghost predicate CoherentBelow(ns: seq<Node>, links: Links, dirs: nat)
    decreases |links|
  {
    if dirs == 0 then Coherent(ns, links)
    else
      && Sole(ns, links[0])
      && var n := Lookup(ns, links[0]);
      n.Some? && |links| > 1 ==> HeadState(n.value).Directory? && CoherentBelow(n.value.subs, links[1..], dirs - 1)
  }

  /** If the path is in the metadata, nothing on the way to it is wiped. */
  predicate Live(ns: seq<Node>, links: Links)
    decreases |links|
  {
    Locate(ns, links).Some? ==>
      var n := Lookup(ns, links[0]).value;
      !Wiped(n) && (|links| > 1 ==> Live(n.subs, links[1..]))
  }

  // ----- what a run does to the history -----

  /** The new history of a tracked path, and the kind of change, from its old history and what the
      search found. */
  function Step(env: Env, h: seq<Point>, seen: Option<Found>): (seq<Point>, Core) {
    if seen.None? then
      if h == [] || h[0].state.NonExisting? then (h, Exclusive(Unchanged))
      else ([Point(Current, NonExisting)] + h, Exclusive(Removed))
    else if h == [] || h[0].state.NonExisting? then
      ([Point(Current, StateOf(seen.value.entry))] + h, Exclusive(Added))
    else
      var (hint, s) := HandleNodeChanges(env, NoHint, h[0].state, seen.value);
      if hint.core == NoFlags then (h, Exclusive(Unchanged)) else ([Point(Current, s)] + h, hint.core)
  }

  /** The outcome for the path in question. */
  ghost predicate Follows(env: Env, ns: seq<Node>, seen: Option<Found>, rs: seq<Node>, links: Links) {
    var (h, core) := Step(env, HistoryAt(ns, links), seen);
    && HistoryAt(rs, links) == h
    && (Locate(rs, links).Some? <==> h != [])
    && (Locate(rs, links).Some? ==> Locate(rs, links).value.hint.core == core)
  }

  // ----- lists -----

  predicate SamePaths(ns: seq<Node>, rs: seq<Node>) {
    |rs| == |ns| && forall i :: 0 <= i < |ns| ==> rs[i].path == ns[i].path
  }

  lemma {:induction false} SamePathsLookup(ns: seq<Node>, rs: seq<Node>, path: Bytes)
    requires SamePaths(ns, rs)
    ensures Sole(ns, path) ==> Sole(rs, path)
    ensures Lookup(ns, path).None? <==> Lookup(rs, path).None?
    ensures Lookup(ns, path).Some? ==> var i := IndexOf(ns, path);
      i < |ns| && Lookup(ns, path).value == ns[i] && Lookup(rs, path).value == rs[i] && ns[i].path == path
  {
    IndexOfSamePaths(rs, ns, path);
  }

  lemma {:induction false} LocateInside(ns: seq<Node>, links: Links)
    requires |links| > 1
    ensures Lookup(ns, links[0]).None? ==> HistoryAt(ns, links) == [] && Locate(ns, links).None?
    ensures Lookup(ns, links[0]).Some? ==>
      && HistoryAt(ns, links) == HistoryAt(Lookup(ns, links[0]).value.subs, links[1..])
      && Locate(ns, links) == Locate(Lookup(ns, links[0]).value.subs, links[1..])
  {
  }

  // ----- missing paths -----

  ghost predicate Expected(env: Env, rule: Rule, ns: seq<Node>) { AllConform(env, rule, ns) && AllUntouched(ns) }

  lemma {:induction false} ExpectedLink(env: Env, rule: Rule, ns: seq<Node>, path: Bytes)
    requires Expected(env, rule, ns) && Lookup(ns, path).Some?
    ensures var n := Lookup(ns, path).value;
      var r := RuleFor(env, rule, path);
      && n.path == path && r.Some? && n.policy == r.value.policy && Expected(env, r.value, n.subs)
      && Untouched(n) && n.history != [] && n.hint == NoHint && Conforms(env, rule, n)
  {
    UntouchedSubs(Lookup(ns, path).value);
  }

  /** Marking a tracked path as removed records that it is missing, once. */
  lemma {:induction false} MarkedChain(env: Env, rule: Rule, ns: seq<Node>, links: Links, extend: bool)
    requires Expected(env, rule, ns) && TrackedBy(env, rule, links) && Coherent(ns, links)
    requires extend || Gone(ns, links)
    ensures var rs := MarkRemovedAll(ns, extend);
      && Gone(rs, links) && Coherent(rs, links) && Live(rs, links)
      && Follows(env, ns, None, rs, links)
    decreases |links|
  {
    hide RuleFor;
    var rs := MarkRemovedAll(ns, extend);
    forall i | 0 <= i < |ns| ensures rs[i].path == ns[i].path { MarkKeepsPath(ns[i], extend); }
    SamePathsLookup(ns, rs, links[0]);
    if Lookup(ns, links[0]).Some? {
      ExpectedLink(env, rule, ns, links[0]);
      MarkedNode(env, rule, Lookup(ns, links[0]).value, links, extend);
      if |links| > 1 {
        LocateInside(ns, links);
        LocateInside(rs, links);
      }
    }
  }

  /** The same for the node of the first link. */
  ghost predicate NodeFollows(env: Env, n: Node, m: Node, links: Links) {
    && !Wiped(m) && HeadState(m).NonExisting?
    && (|links| == 1 ==> m.history == Step(env, n.history, None).0 && m.hint.core == Step(env, n.history, None).1)
    && (|links| > 1 ==>
      && Gone(m.subs, links[1..]) && Coherent(m.subs, links[1..]) && Live(m.subs, links[1..])
      && Follows(env, n.subs, None, m.subs, links[1..]))
  }

  lemma {:induction false} MarkedNode(env: Env, rule: Rule, n: Node, links: Links, extend: bool)
    requires Untouched(n) && Conforms(env, rule, n) && n.path == links[0] && TrackedBy(env, rule, links)
    requires |links| > 1 ==> Coherent(n.subs, links[1..])
    requires extend || (HeadState(n).NonExisting? && (|links| > 1 ==> Gone(n.subs, links[1..])))
    ensures NodeFollows(env, n, MarkRemovedRec(n, extend), links)
    decreases |links|, 0
  {
    hide RuleFor, Follows;
    UntouchedSubs(n);
    var m := MarkRemovedRec(n, extend);
    if |links| > 1 {
      assert ExtendBelow(n, extend) == extend;
      assert m.subs == MarkRemovedAll(n.subs, extend);
      MarkedChain(env, RuleFor(env, rule, n.path).value, n.subs, links[1..], extend);
    }
  }

  /** A tracked path that is not found is marked as removed. */
  lemma {:induction false} MissingNode(env: Env, rule: Rule, n: Node, links: Links)
    requires Untouched(n) && Conforms(env, rule, n) && n.path == links[0] && TrackedBy(env, rule, links)
    requires |links| > 1 ==> Coherent(n.subs, links[1..])
    ensures NodeFollows(env, n, HandleNotFound(env, n, rule.node, rule.policy), links)
  {
    hide RuleFor, SupposedPolicy, MarkRemovedRec, NodeFollows;
    SupposedIsRule(env, rule, n);
    assert HandlePolicyChanges(n, n.policy) == n;
    MarkedNode(env, rule, n, links, true);
  }

  lemma {:induction false} MissingChain(env: Env, rule: Rule, ns: seq<Node>, links: Links)
    requires Expected(env, rule, ns) && TrackedBy(env, rule, links) && Coherent(ns, links)
    ensures var rs := HandleNotFoundAll(env, ns, rule.node, rule.policy);
      && Gone(rs, links) && Coherent(rs, links) && Live(rs, links)
      && Follows(env, ns, None, rs, links)
  {
    hide RuleFor, HandleNotFound;
    var rs := HandleNotFoundAll(env, ns, rule.node, rule.policy);
    forall i | 0 <= i < |ns| ensures rs[i].path == ns[i].path { NotFoundKeepsPath(env, ns[i], rule.node, rule.policy); }
    SamePathsLookup(ns, rs, links[0]);
    if Lookup(ns, links[0]).Some? {
      ExpectedLink(env, rule, ns, links[0]);
      MissingNode(env, rule, Lookup(ns, links[0]).value, links);
      if |links| > 1 {
        LocateInside(ns, links);
        LocateInside(rs, links);
      }
    }
  }

  // ----- found paths -----

  lemma {:induction false} SolePrepend(ns: seq<Node>, n: Node, path: Bytes)
    requires Sole(ns, path) && IndexOf(ns, n.path) == |ns|
    ensures Sole([n] + ns, path)
  {
    var rs := [n] + ns;
    assert forall j :: 0 <= j < |ns| ==> rs[j + 1] == ns[j];
  }

  lemma {:induction false} SoleReplace(ns: seq<Node>, i: nat, n: Node, path: Bytes)
    requires Sole(ns, path) && i < |ns| && n.path == ns[i].path
    ensures Sole(ns[i := n], path)
  {
  }

  lemma {:induction false} MergeSole(env: Env, ns: seq<Node>, fs: seq<Found>, path: Bytes)
    requires Sole(ns, path)
    ensures Sole(MergeAll(env, ns, fs), path)
    decreases |fs|
  {
    hide Sole, CompleteNode, HandleFoundNode, MergeInside;
    if fs != [] {
      var f := fs[0];
      if !f.entry.Other? {
        ProcessedPath(env, Lookup(ns, f.path), f);
        var i := IndexOf(ns, f.path);
        var r := Processed(env, Lookup(ns, f.path), f);
        if i == |ns| { SolePrepend(ns, r, path); } else { SoleReplace(ns, i, r, path); }
      }
      MergeSole(env, MergeOne(env, ns, f), fs[1..], path);
    }
  }

  lemma {:induction false} ProcessedHint(env: Env, prior: Option<Node>, f: Found)
    ensures Processed(env, prior, f).hint != NoHint
  {
    hide SettleSubnodes, Reached, MergeInside;
  }

  /** What the lists of a directory hold for a path after the listing and the missing paths were
      handled. */
  lemma {:induction false} ListedLookup(env: Env, rule: Rule, ns: seq<Node>, fs: seq<Found>, path: Bytes)
    requires DistinctPaths(fs)
    ensures var rs := HandleNotFoundAll(env, MergeAll(env, ns, fs), rule.node, rule.policy);
      && (Sole(ns, path) ==> Sole(rs, path))
      && Lookup(rs, path) ==
           if FindFound(fs, path).Some? then Some(Processed(env, Lookup(ns, path), FindFound(fs, path).value))
           else if Lookup(ns, path).None? then None
           else Some(HandleNotFound(env, Lookup(ns, path).value, rule.node, rule.policy))
  {
    hide Processed, HandleNotFound;
    var all := MergeAll(env, ns, fs);
    var rs := HandleNotFoundAll(env, all, rule.node, rule.policy);
    forall i | 0 <= i < |all| ensures rs[i].path == all[i].path { NotFoundKeepsPath(env, all[i], rule.node, rule.policy); }
    SamePathsLookup(all, rs, path);
    MergeAllLookup(env, ns, fs, path);
    if Sole(ns, path) { MergeSole(env, ns, fs, path); }
    if FindFound(fs, path).Some? {
      var r := Processed(env, Lookup(ns, path), FindFound(fs, path).value);
      ProcessedHint(env, Lookup(ns, path), FindFound(fs, path).value);
      assert HandleNotFound(env, r, rule.node, rule.policy) == r by { SettledStays(env, r, rule.node, rule.policy); }
    }
  }

  lemma {:induction false} SettledStays(env: Env, n: Node, parent: Option<SearchNode>, policy: Policy)
    requires n.hint != NoHint
    ensures HandleNotFound(env, n, parent, policy) == n
  {
  }

  lemma {:induction false} FoundLink(env: Env, rule: Rule, fs: seq<Found>, path: Bytes)
    requires AllObey(env, rule, fs) && DistinctPaths(fs) && FindFound(fs, path).Some?
    ensures var f := FindFound(fs, path).value;
      && f.path == path && !f.entry.Other? && DistinctPaths(f.children)
      && RuleFor(env, rule, path) == Some(Rule(f.node, f.policy)) && AllObey(env, Rule(f.node, f.policy), f.children)
      && Obeys(env, rule, f)
  {
    hide RuleFor;
    FindFoundIn(fs, path);
  }

  function SubsOf(n: Option<Node>): seq<Node> { if n.None? then [] else n.value.subs }

  function PointsOf(n: Option<Node>): seq<Point> { if n.None? then [] else n.value.history }

  /** The history and hint of a found tracked path. */
  lemma {:induction false} TrackedReached(env: Env, rule: Rule, prior: Option<Node>, f: Found)
    requires Prior(env, rule, prior, f) && f.policy.Track?
    ensures var n := Reached(env, prior, f);
      var (h, core) := Step(env, PointsOf(prior), Some(f));
      && n.history == h && n.policy == f.policy && n.subs == SubsOf(prior) && !Wiped(n)
      && core == (if n.hint == NoHint then Exclusive(Unchanged) else n.hint.core)
      && (HeadState(n).Directory? <==> f.entry.Dir?)
      && !HeadState(n).NonExisting?
      && (FromDirectory(n.hint) <==> prior.Some? && HeadState(prior.value).Directory? && !f.entry.Dir?)
  {
    if prior.Some? {
      var n := prior.value;
      UntouchedSubs(n);
      assert HandlePolicyChanges(n, f.policy) == n;
      if !n.history[0].state.NonExisting? { TrackedChanges(env, n.history[0].state, f); }
      hide HandleNodeChanges;
    }
  }

  lemma {:induction false} TrackedChanges(env: Env, s: PathState, f: Found)
    requires !s.NonExisting? && !f.entry.Other? && !f.policy.NoPolicy?
    ensures var (h, t) := HandleNodeChanges(env, NoHint, s, f);
      && h.policyChanged == false && h.losesHistory == false
      && h.core != Exclusive(NotPartOfRepository)
      && (t.Directory? <==> f.entry.Dir?) && !t.NonExisting?
      && (FromDirectory(h) <==> s.Directory? && !f.entry.Dir?)
      && (h.core == NoFlags ==> s == t)
  {
    if s.RegularFile? && f.entry.File? {
      FileUnchanged(env, FlagIf(NoHint, s.uid != f.entry.uid || s.gid != f.entry.gid, OwnerChanged), s.info, f.entry);
    }
  }

  lemma {:induction false} FileUnchanged(env: Env, h: Hint, i: FileInfo, e: Entry)
    requires e.File? && h.core.Flags? && !h.core.freshHash
    ensures var (g, j) := ApplyFileChanges(env, h, i, e);
      g.core.Flags? && g.policyChanged == h.policyChanged && g.losesHistory == h.losesHistory
      && (g.core == NoFlags ==> h.core == NoFlags && i == j)
  {
  }

  /** Completing a found tracked path. */
  lemma {:induction false} TrackedCompleted(env: Env, n: Node, f: Found)
    requires n.policy == f.policy && f.policy.Track?
    ensures var r := CompleteNode(env, n, f);
      && r.history == n.history && r.subs == SettleSubnodes(env, n, f)
      && r.hint.core == (if n.hint == NoHint then Exclusive(Unchanged) else n.hint.core)
      && (Wiped(r) <==> Wiped(n))
  {
    hide SettleSubnodes;
  }

  /** Below a tracked path that is no directory now, everything is recorded as missing. */
  lemma {:induction false} BelowNonDirectory(env: Env, rule: Rule, prior: Option<Node>, f: Found, links: Links)
    requires Prior(env, rule, prior, f) && f.policy.Track? && !f.entry.Dir? && f.path == links[0]
    requires |links| > 1 && TrackedBy(env, rule, links)
    requires Coherent(SubsOf(prior), links[1..])
    requires prior.Some? && !HeadState(prior.value).Directory? ==> Gone(SubsOf(prior), links[1..])
    ensures var rs := SettleSubnodes(env, Reached(env, prior, f), f);
      && Gone(rs, links[1..]) && Coherent(rs, links[1..]) && Live(rs, links[1..])
      && Follows(env, SubsOf(prior), None, rs, links[1..])
  {
    hide RuleFor, Step, Follows;
    var inner := Rule(f.node, f.policy);
    var n := Reached(env, prior, f);
    TrackedReached(env, rule, prior, f);
    if prior.Some? { UntouchedSubs(prior.value); }
    assert Expected(env, inner, SubsOf(prior));
    if FromDirectory(n.hint) {
      MarkedChain(env, inner, n.subs, links[1..], true);
    } else if HeadState(n).RegularFile? {
      if prior.None? { GoneInEmpty(links[1..]); }
      MarkedChain(env, inner, n.subs, links[1..], false);
    } else {
      MissingChain(env, inner, n.subs, links[1..]);
    }
  }

  lemma {:induction false} GoneInEmpty(links: Links)
    ensures Gone([], links) && Coherent([], links)
  {
  }

  lemma {:induction false} DirectorySettles(env: Env, n: Node, f: Found)
    requires f.entry.Dir? && !FromDirectory(n.hint) && !(f.policy.Track? && HeadState(n).RegularFile?)
    ensures SettleSubnodes(env, MergeInside(env, n, f), f)
         == HandleNotFoundAll(env, MergeAll(env, n.subs, f.children), f.node, f.policy)
  {
  }

  /** A listing and the missing paths together take a tracked path one step further. */
  lemma {:induction false} TrackedPass(env: Env, rule: Rule, ns: seq<Node>, fs: seq<Found>, links: Links)
    requires Expected(env, rule, ns) && AllObey(env, rule, fs) && DistinctPaths(fs)
    requires TrackedBy(env, rule, links) && Coherent(ns, links)
    ensures var rs := HandleNotFoundAll(env, MergeAll(env, ns, fs), rule.node, rule.policy);
      && Coherent(rs, links) && Live(rs, links)
      && Follows(env, ns, Sight(fs, links), rs, links)
    decreases |links|
  {
    hide RuleFor, Processed, HandleNotFound, HandleNodeChanges;
    var p := links[0];
    var rs := HandleNotFoundAll(env, MergeAll(env, ns, fs), rule.node, rule.policy);
    ListedLookup(env, rule, ns, fs, p);
    if Lookup(ns, p).Some? { ExpectedLink(env, rule, ns, p); }
    if |links| > 1 { LocateInside(ns, links); LocateInside(rs, links); }
    if FindFound(fs, p).None? {
      if Lookup(ns, p).Some? {
        MissingNode(env, rule, Lookup(ns, p).value, links);
      }
    } else {
      FoundLink(env, rule, fs, p);
      FoundNode(env, rule, Lookup(ns, p), FindFound(fs, p).value, links);
    }
  }

  /** What processing a found result leaves for the path of interest. */
  ghost predicate FoundFollows(env: Env, prior: Option<Node>, f: Found, m: Node, links: Links) {
    && !Wiped(m)
    && (|links| == 1 ==> m.history == Step(env, PointsOf(prior), Some(f)).0 && m.history != [] && m.hint.core == Step(env, PointsOf(prior), Some(f)).1)
    && (|links| > 1 ==>
      && Coherent(m.subs, links[1..]) && Live(m.subs, links[1..]) && (!HeadState(m).Directory? ==> Gone(m.subs, links[1..]))
      && Follows(env, SubsOf(prior), if f.entry.Dir? then Sight(f.children, links[1..]) else None, m.subs, links[1..]))
  }

  lemma {:induction false} FoundNode(env: Env, rule: Rule, prior: Option<Node>, f: Found, links: Links)
    requires Prior(env, rule, prior, f) && f.path == links[0] && DistinctPaths(f.children)
    requires TrackedBy(env, rule, links)
    requires |links| > 1 && prior.Some? ==>
      Coherent(prior.value.subs, links[1..]) && (!HeadState(prior.value).Directory? ==> Gone(prior.value.subs, links[1..]))
    ensures FoundFollows(env, prior, f, Processed(env, prior, f), links)
    decreases |links|, 0
  {
    hide RuleFor, Step, Follows, HandleFoundNode, SettleSubnodes, CompleteNode;
    var n := Reached(env, prior, f);
    TrackedReached(env, rule, prior, f);
    var inside := MergeInside(env, n, f);
    TrackedCompleted(env, inside, f);
    if |links| > 1 {
      GoneInEmpty(links[1..]);
      if f.entry.Dir? {
        DirectorySettles(env, n, f);
        if prior.Some? { UntouchedSubs(prior.value); }
        TrackedPass(env, Rule(f.node, f.policy), n.subs, f.children, links[1..]);
      } else {
        BelowNonDirectory(env, rule, prior, f, links);
      }
    }
  }

  // ----- below directories that are always found -----

  /** A found directory that the metadata knows as a directory, or not at all. */
  lemma {:induction false} DirectoryReached(env: Env, rule: Rule, prior: Option<Node>, f: Found)
    requires Prior(env, rule, prior, f) && f.entry.Dir?
    requires prior.Some? ==> HeadState(prior.value).Directory?
    ensures var n := Reached(env, prior, f);
      && HeadState(n).Directory? && n.subs == SubsOf(prior) && !FromDirectory(n.hint) && n.policy == f.policy
  {
    if prior.Some? {
      UntouchedSubs(prior.value);
      assert HandlePolicyChanges(prior.value, f.policy) == prior.value;
    }
  }

  lemma {:induction false} DirectoryCompleted(env: Env, n: Node, f: Found)
    ensures var r := CompleteNode(env, n, f);
      && r.history == n.history && r.subs == SettleSubnodes(env, n, f)
      && (Wiped(r) ==> Wiped(n) || AllWiped(r.subs))
  {
    hide SettleSubnodes;
  }

  lemma {:induction false} WipedHidesNothing(ns: seq<Node>, links: Links)
    requires AllWiped(ns) && Live(ns, links)
    ensures Locate(ns, links).None?
  {
  }

  /** The step of a pass for the path of interest, through directories that are always found. */
  lemma {:induction false} ChainPass(env: Env, rule: Rule, ns: seq<Node>, fs: seq<Found>, links: Links, dirs: nat)
    requires Expected(env, rule, ns) && AllObey(env, rule, fs) && DistinctPaths(fs)
    requires CoveredBy(env, rule, links, dirs) && SeesDirectories(fs, links, dirs) && CoherentBelow(ns, links, dirs)
    ensures var rs := HandleNotFoundAll(env, MergeAll(env, ns, fs), rule.node, rule.policy);
      && CoherentBelow(rs, links, dirs) && Live(rs, links)
      && Follows(env, ns, Sight(fs, links), rs, links)
    decreases |links|
  {
    hide RuleFor, HandleNotFound, Step, Processed;
    if dirs == 0 {
      TrackedPass(env, rule, ns, fs, links);
    } else {
      var p := links[0];
      var rs := HandleNotFoundAll(env, MergeAll(env, ns, fs), rule.node, rule.policy);
      ListedLookup(env, rule, ns, fs, p);
      if Lookup(ns, p).Some? { ExpectedLink(env, rule, ns, p); }
      LocateInside(ns, links);
      LocateInside(rs, links);
      FoundLink(env, rule, fs, p);
      if Lookup(ns, p).Some? { UntouchedSubs(Lookup(ns, p).value); }
      NothingBelowEmpty(links[1..], dirs - 1);
      ChainInside(env, rule, Lookup(ns, p), FindFound(fs, p).value, links, dirs);
      var m := Lookup(rs, p).value;
      if Wiped(m) { WipedHidesNothing(m.subs, links[1..]); }
    }
  }

  lemma {:induction false} ChainInside(env: Env, rule: Rule, prior: Option<Node>, f: Found, links: Links, dirs: nat)
    requires Prior(env, rule, prior, f) && f.entry.Dir? && DistinctPaths(f.children) && |links| > 1 && dirs > 0
    requires prior.Some? ==> HeadState(prior.value).Directory?
    requires Expected(env, Rule(f.node, f.policy), SubsOf(prior))
    requires CoveredBy(env, Rule(f.node, f.policy), links[1..], dirs - 1)
    requires SeesDirectories(f.children, links[1..], dirs - 1) && CoherentBelow(SubsOf(prior), links[1..], dirs - 1)
    ensures var m := Processed(env, prior, f);
      && HeadState(m).Directory? && (Wiped(m) ==> AllWiped(m.subs))
      && CoherentBelow(m.subs, links[1..], dirs - 1) && Live(m.subs, links[1..])
      && Follows(env, SubsOf(prior), Sight(f.children, links[1..]), m.subs, links[1..])
    decreases |links|, 0
  {
    hide RuleFor, HandleNotFound, Step, HandleFoundNode, SettleSubnodes, CompleteNode, Follows;
    var n := Reached(env, prior, f);
    DirectoryReached(env, rule, prior, f);
    DirectorySettles(env, n, f);
    DirectoryCompleted(env, MergeInside(env, n, f), f);
    DirectoryLive(env, rule, prior, f);
    ChainPass(env, Rule(f.node, f.policy), n.subs, f.children, links[1..], dirs - 1);
  }

  lemma {:induction false} DirectoryLive(env: Env, rule: Rule, prior: Option<Node>, f: Found)
    requires Prior(env, rule, prior, f)
    ensures !Wiped(Reached(env, prior, f))
  {
    if prior.Some? { FoundOk(env, prior.value, f); }
  }

  lemma {:induction false} NothingBelowEmpty(links: Links, dirs: nat)
    ensures CoherentBelow([], links, dirs)
  {
    GoneInEmpty(links);
  }
}
