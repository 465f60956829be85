/** One path through a pass that is copied or mirrored: what becomes of it if it is found, and if it is not. */
module Untracked {
  import opened Data
  import opened Str
  import opened Metadata
  import opened Backup
  import opened BackupFrame
  import opened RefCountsExact
  import opened History
  import opened Wiping
  import opened FixedConfig
  import opened Stock
  import opened Chains
  import Stranding

  /** Whether a known path stays in the metadata, told from the loaded tree and the results. If it, or
      something above it, is not found, the topmost missing path decides, by its policy; below a
      directory that has become something else, the policy of that directory does. */
  predicate Outlives(ns: seq<Node>, fs: seq<Found>, links: Links)
    decreases |links|, 1
  {
    var n, f := Lookup(ns, links[0]), FindFound(fs, links[0]);
    n.Some? && if f.None? then !n.value.policy.Mirror? else |links| == 1 || OutlivesInside(n.value, f.value, links)
  }

  predicate OutlivesInside(n: Node, f: Found, links: Links)
    requires |links| > 1
    decreases |links|, 0
  {
    if f.entry.Dir? then Outlives(n.subs, f.children, links[1..])
    else if HeadState(n).Directory? then n.policy.Track? || n.policy.NoPolicy?
    else (n.policy.Track? && f.entry.File?) || Outlives(n.subs, [], links[1..])
  }

  /** The one point that a known path has after it was found. */
  predicate Compared(env: Env, t: Node, f: Found, r: Node)
    requires t.history != []
  {
    var (h, s) := HandleNodeChanges(env, NoHint, t.history[0].state, f);
    && r.history == [Point(if h.core == NoFlags then t.history[0].backup else Current, s)]
    && r.hint.core == if h.core == NoFlags then Exclusive(Unchanged) else h.core
  }

  /** What becomes of a path that is copied or mirrored. */
  ghost predicate Fares(env: Env, before: Option<Node>, seen: Option<Found>, after: Option<Node>, stays: bool) {
    if before.None? then
      if seen.None? then after.None?
      else
        && after.Some? && !Wiped(after.value) && after.value.hint.core == Exclusive(Added)
        && after.value.history == [Point(Current, StateOf(seen.value.entry))]
    else
      && before.value.history != [] && after.Some?
      && (seen.Some? ==> !Wiped(after.value) && Compared(env, before.value, seen.value, after.value))
      && (seen.None? && stays ==>
            !Wiped(after.value) && after.value.history == before.value.history && after.value.hint.core == Exclusive(Removed))
      && (seen.None? && !stays ==> DeepWiped(after.value))
  }

  /** Policies that keep one state of a path. */
  predicate Single(p: Policy) { p.Copy? || p.Mirror? }

  /** The config copies or mirrors the path. */
  predicate SingleBy(env: Env, rule: Rule, links: Links)
    decreases |links|
  {
    var r := RuleFor(env, rule, links[0]);
    r.Some? && if |links| == 1 then Single(r.value.policy) else SingleBy(env, r.value, links[1..])
  }

  // ----- lists -----

  lemma {:induction false} LocatedSingle(env: Env, rule: Rule, ns: seq<Node>, links: Links)
    requires AllConform(env, rule, ns) && SingleBy(env, rule, links) && Locate(ns, links).Some?
    ensures Single(Locate(ns, links).value.policy)
    decreases |links|
  {
    hide RuleFor;
    var n := Lookup(ns, links[0]).value;
    if |links| > 1 { LocatedSingle(env, RuleFor(env, rule, links[0]).value, n.subs, links[1..]); }
  }

  lemma {:induction false} MarkedOne(n: Node, extend: bool)
    requires Untouched(n)
    ensures MarkRemovedRec(n, extend).subs == MarkRemovedAll(n.subs, ExtendBelow(n, extend)) && !Wiped(MarkRemovedRec(n, extend))
    ensures Single(n.policy) ==>
      MarkRemovedRec(n, extend).history == n.history && MarkRemovedRec(n, extend).hint.core == Exclusive(Removed)
  {
    UntouchedSubs(n);
  }

  /** A list that is marked as removed keeps the path. */
  lemma {:induction false} MarkedStays(ns: seq<Node>, links: Links, extend: bool)
    requires AllUntouched(ns) && Locate(ns, links).Some? && Single(Locate(ns, links).value.policy)
    ensures var rs := MarkRemovedAll(ns, extend);
      && Locate(rs, links).Some? && !Wiped(Locate(rs, links).value)
      && Locate(rs, links).value.history == Locate(ns, links).value.history
      && Locate(rs, links).value.hint.core == Exclusive(Removed)
    decreases |links|
  {
    hide MarkRemovedRec, ExtendBelow, Untouched;
    var rs := MarkRemovedAll(ns, extend);
    forall i | 0 <= i < |ns| ensures rs[i].path == ns[i].path { MarkKeepsPath(ns[i], extend); }
    SamePathsLookup(ns, rs, links[0]);
    var n := Lookup(ns, links[0]).value;
    MarkedOne(n, extend);
    if |links| > 1 {
      UntouchedSubs(n);
      MarkedStays(n.subs, links[1..], ExtendBelow(n, extend));
    }
  }

  /** A list that is wiped loses it. */
  lemma {:induction false} WipedGoes(ns: seq<Node>, links: Links)
    requires Locate(ns, links).Some?
    ensures Locate(WipeAll(ns), links).Some? && DeepWiped(Locate(WipeAll(ns), links).value)
    decreases |links|
  {
    var rs := WipeAll(ns);
    forall i | 0 <= i < |ns| ensures rs[i].path == ns[i].path { WipeKeepsPath(ns[i]); }
    SamePathsLookup(ns, rs, links[0]);
    var n := Lookup(ns, links[0]).value;
    assert Lookup(rs, links[0]) == Some(WipeRec(n)) && WipeRec(n).subs == WipeAll(n.subs);
    hide WipeRec, WipeAll;
    if |links| > 1 { WipedGoes(n.subs, links[1..]); } else { WipeRecDeep(n); }
  }

  /** What a missing path becomes. */
  lemma {:induction false} MissingBecomes(env: Env, rule: Rule, n: Node)
    requires Untouched(n) && Conforms(env, rule, n) && Plain(n) && (n.policy.NoPolicy? ==> n.subs != [])
    ensures HandleNotFound(env, n, rule.node, rule.policy) == if n.policy.Mirror? then WipeRec(n) else MarkRemovedRec(n, true)
  {
    hide SupposedPolicy, RuleFor, WipeRec, MarkRemovedRec;
    SupposedIsRule(env, rule, n);
    UntouchedSubs(n);
    assert HandlePolicyChanges(n, n.policy) == n;
  }

  function At(n: Node, links: Links): Option<Node> { if |links| == 1 then Some(n) else Locate(n.subs, links[1..]) }

  /** What happens to a path below the topmost one that is missing. */
  lemma {:induction false} MissingFares(env: Env, rule: Rule, n: Node, links: Links)
    requires Untouched(n) && Conforms(env, rule, n) && Plain(n)
    requires At(n, links).Some? && Single(At(n, links).value.policy)
    ensures Fares(env, At(n, links), None, At(HandleNotFound(env, n, rule.node, rule.policy), links), !n.policy.Mirror?)
  {
    hide HandleNotFound, RuleFor, Untouched, Compared, MarkRemovedRec;
    UntouchedSubs(n);
    assert n.policy.NoPolicy? ==> n.subs != [];
    MissingBecomes(env, rule, n);
    if |links| > 1 { LocatedHistory(n.subs, links[1..]); }
    if n.policy.Mirror? {
      assert WipeRec(n).subs == WipeAll(n.subs);
      hide WipeRec, WipeAll;
      WipeRecDeep(n);
      if |links| > 1 { WipedGoes(n.subs, links[1..]); }
    } else {
      MarkedOne(n, true);
      if |links| > 1 { MarkedStays(n.subs, links[1..], ExtendBelow(n, true)); }
    }
  }

  lemma {:induction false} LocatedHistory(ns: seq<Node>, links: Links)
    requires AllUntouched(ns) && Locate(ns, links).Some?
    ensures Locate(ns, links).value.history != [] && Untouched(Locate(ns, links).value)
    decreases |links|
  {
    var n := Lookup(ns, links[0]).value;
    UntouchedSubs(n);
    if |links| > 1 { LocatedHistory(n.subs, links[1..]); }
  }

  // ----- found paths -----

  lemma {:induction false} SingleChanges(env: Env, s: PathState, f: Found)
    requires !s.NonExisting? && !f.entry.Other? && !f.policy.NoPolicy?
    ensures var (h, t) := HandleNodeChanges(env, NoHint, s, f);
      h.policyChanged == false && h.losesHistory == false && h.core != Exclusive(NotPartOfRepository) && (h.core == NoFlags ==> h == NoHint)
  {
    TrackedChanges(env, s, f);
  }

  /** A path that is found has one point with what was found. */
  lemma {:induction false} FoundFares(env: Env, rule: Rule, prior: Option<Node>, f: Found)
    requires Prior(env, rule, prior, f) && Single(f.policy)
    ensures Fares(env, prior, Some(f), Some(Processed(env, prior, f)), true)
  {
    hide HandleNodeChanges, SettleSubnodes, MergeAll;
    if prior.Some? {
      var n := prior.value;
      UntouchedSubs(n);
      assert HandlePolicyChanges(n, f.policy) == n;
      SingleChanges(env, n.history[0].state, f);
      assert n.history[1..] == [];
      var r := Reached(env, prior, f);
      assert r.history[1..] == [];
    }
  }

  /** The subnodes of a path that is found as something else than a directory. */
  lemma {:induction false} NonDirectorySettles(env: Env, rule: Rule, n: Node, f: Found)
    requires Prior(env, rule, Some(n), f) && !f.entry.Dir?
    ensures SettleSubnodes(env, Reached(env, Some(n), f), f) ==
      if HeadState(n).Directory? then
        if f.policy.NoPolicy? || f.policy.Track? then MarkRemovedAll(n.subs, f.policy.Track?) else WipeAll(n.subs)
      else if f.policy.Track? && f.entry.File? then MarkRemovedAll(n.subs, false)
      else HandleNotFoundAll(env, n.subs, f.node, f.policy)
  {
    hide MarkRemovedAll, WipeAll, HandleNotFoundAll;
    UntouchedSubs(n);
    assert HandlePolicyChanges(n, f.policy) == n;
    if !n.history[0].state.NonExisting? { ChangedType(env, n.history[0].state, f); }
    hide HandleNodeChanges;
  }

  lemma {:induction false} ChangedType(env: Env, s: PathState, f: Found)
    requires !s.NonExisting? && !f.entry.Other?
    ensures var (h, t) := HandleNodeChanges(env, NoHint, s, f);
      && (FromDirectory(h) <==> s.Directory? && !f.entry.Dir?)
      && (!f.policy.NoPolicy? ==> (t.RegularFile? <==> f.entry.File?))
      && (h.core == NoFlags ==> (t.RegularFile? <==> s.RegularFile?))
  {
  }

  lemma {:induction false} SameWay(ns: seq<Node>, links: Links, extend: bool)
    ensures Locate(MarkRemovedAll(ns, extend), links).Some? <==> Locate(ns, links).Some?
    ensures Locate(WipeAll(ns), links).Some? <==> Locate(ns, links).Some?
    decreases |links|
  {
    var ms, ws := MarkRemovedAll(ns, extend), WipeAll(ns);
    forall i | 0 <= i < |ns| ensures ms[i].path == ns[i].path && ws[i].path == ns[i].path {
      MarkKeepsPath(ns[i], extend);
      WipeKeepsPath(ns[i]);
    }
    SamePathsLookup(ns, ms, links[0]);
    SamePathsLookup(ns, ws, links[0]);
    if Lookup(ns, links[0]).Some? && |links| > 1 {
      var n := Lookup(ns, links[0]).value;
      assert Lookup(ws, links[0]).value == WipeRec(n) && WipeRec(n).subs == WipeAll(n.subs);
      assert Lookup(ms, links[0]).value == MarkRemovedRec(n, extend);
      assert MarkRemovedRec(n, extend).subs == if Wiped(n) then n.subs else MarkRemovedAll(n.subs, ExtendBelow(n, extend));
      SameWay(n.subs, links[1..], ExtendBelow(n, extend));
    }
  }

  /** A missing path that the metadata does not have. */
  lemma {:induction false} MissingNowhere(env: Env, rule: Rule, n: Node, links: Links)
    requires Untouched(n) && Conforms(env, rule, n) && |links| > 1 && Locate(n.subs, links[1..]).None?
    ensures Locate(HandleNotFound(env, n, rule.node, rule.policy).subs, links[1..]).None?
  {
    hide RuleFor, SupposedPolicy, MarkRemovedAll, WipeAll;
    SupposedIsRule(env, rule, n);
    UntouchedSubs(n);
    assert HandlePolicyChanges(n, n.policy) == n;
    SameWay(n.subs, links[1..], ExtendBelow(n, true));
    assert WipeRec(n).subs == WipeAll(n.subs) by { WipedSubs(n); }
    MarkedOne(n, true);
  }

  lemma {:induction false} WipedSubs(n: Node)
    ensures WipeRec(n).subs == WipeAll(n.subs)
  {
  }

  /** What a list that is marked as removed, or wiped, leaves of a path in it. */
  lemma {:induction false} ListFares(env: Env, rule: Rule, ns: seq<Node>, links: Links, extend: bool)
    requires Expected(env, rule, ns) && SingleBy(env, rule, links)
    ensures Fares(env, Locate(ns, links), None, Locate(MarkRemovedAll(ns, extend), links), true)
    ensures Fares(env, Locate(ns, links), None, Locate(WipeAll(ns), links), false)
  {
    hide SingleBy, MarkRemovedAll, WipeAll, Locate, Compared;
    SameWay(ns, links, extend);
    if Locate(ns, links).Some? {
      LocatedSingle(env, rule, ns, links);
      LocatedHistory(ns, links);
      MarkedStays(ns, links, extend);
      WipedGoes(ns, links);
    }
  }

  // ----- a pass -----

  function Handled(env: Env, rule: Rule, ns: seq<Node>, fs: seq<Found>): seq<Node> {
    HandleNotFoundAll(env, MergeAll(env, ns, fs), rule.node, rule.policy)
  }

  lemma {:induction false} NoneFound(env: Env, rule: Rule, ns: seq<Node>)
    ensures Handled(env, rule, ns, []) == HandleNotFoundAll(env, ns, rule.node, rule.policy) && DistinctPaths([]) && AllObey(env, rule, [])
  {
    assert MergeAll(env, ns, []) == ns;
  }

  lemma {:induction false} NothingSettles(env: Env, f: Found)
    requires !f.entry.Dir?
    ensures SettleSubnodes(env, NewNode(f), f) == []
  {
  }

  /** What becomes of a path inside one that is found. */
  lemma {:induction false} InsideFares(env: Env, rule: Rule, prior: Option<Node>, f: Found, links: Links)
    requires Prior(env, rule, prior, f) && f.path == links[0] && |links| > 1 && DistinctPaths(f.children) && SingleBy(env, rule, links)
    requires AllPlain(SubsOf(prior))
    ensures Fares(env, Locate(SubsOf(prior), links[1..]), if f.entry.Dir? then Sight(f.children, links[1..]) else None,
                  Locate(Processed(env, prior, f).subs, links[1..]), prior.Some? && OutlivesInside(prior.value, f, links))
    decreases |links|, 0
  {
    hide RuleFor, HandleFoundNode, SettleSubnodes, CompleteNode, MarkRemovedAll, WipeAll, HandleNotFoundAll, MergeAll, Compared, DistinctPaths;
    var inner, subs, way := Rule(f.node, f.policy), SubsOf(prior), links[1..];
    var n := Reached(env, prior, f);
    DirectoryCompleted(env, MergeInside(env, n, f), f);
    assert Expected(env, inner, subs) && n.subs == subs && (f.entry.Dir? ==> !FromDirectory(n.hint) && !(f.policy.Track? && HeadState(n).RegularFile?)) by {
      SubsAreExpected(env, rule, prior, f);
    }
    if f.entry.Dir? {
      DirectorySettles(env, n, f);
      SinglePass(env, inner, subs, f.children, way);
      if prior.None? { NothingOutlives(f.children, way); }
    } else if prior.None? {
      NothingSettles(env, f);
    } else {
      NonDirectorySettles(env, rule, prior.value, f);
      if HeadState(prior.value).Directory? || (f.policy.Track? && f.entry.File?) {
        ListFares(env, inner, subs, way, f.policy.Track? && HeadState(prior.value).Directory?);
      } else {
        NoneFound(env, inner, subs);
        SinglePass(env, inner, subs, [], way);
      }
    }
  }

  lemma {:induction false} NothingOutlives(fs: seq<Found>, links: Links)
    ensures !Outlives([], fs, links)
  {
  }

  lemma {:induction false} SubsAreExpected(env: Env, rule: Rule, prior: Option<Node>, f: Found)
    requires Prior(env, rule, prior, f)
    ensures var n := Reached(env, prior, f);
      && Expected(env, Rule(f.node, f.policy), SubsOf(prior)) && n.subs == SubsOf(prior)
      && (prior.Some? ==> prior.value.policy == f.policy)
      && (f.entry.Dir? ==> !FromDirectory(n.hint) && !(f.policy.Track? && HeadState(n).RegularFile?))
  {
    hide RuleFor, HandleFoundNode;
    if prior.Some? {
      UntouchedSubs(prior.value);
      Stranding.FoundParts(env, prior.value, f);
    }
  }

  /** A listing and the missing paths together: what becomes of a path that is copied or mirrored. */
  lemma {:induction false} SinglePass(env: Env, rule: Rule, ns: seq<Node>, fs: seq<Found>, links: Links)
    requires Expected(env, rule, ns) && AllPlain(ns) && AllObey(env, rule, fs) && DistinctPaths(fs) && SingleBy(env, rule, links)
    ensures Fares(env, Locate(ns, links), Sight(fs, links), Locate(Handled(env, rule, ns, fs), links), Outlives(ns, fs, links))
    decreases |links|, 1
  {
    hide RuleFor, Processed, HandleNotFound, HandleNodeChanges, Compared, OutlivesInside;
    var p := links[0];
    ListedLookup(env, rule, ns, fs, p);
    if Lookup(ns, p).Some? { ExpectedLink(env, rule, ns, p); }
    if FindFound(fs, p).None? {
      if Lookup(ns, p).Some? {
        var n := Lookup(ns, p).value;
        if At(n, links).Some? {
          LocatedSingle(env, rule, ns, links);
          MissingFares(env, rule, n, links);
        } else {
          MissingNowhere(env, rule, n, links);
        }
      }
    } else {
      FoundLink(env, rule, fs, p);
      var f := FindFound(fs, p).value;
      if |links| == 1 {
        FoundFares(env, rule, Lookup(ns, p), f);
      } else {
        InsideFares(env, rule, Lookup(ns, p), f, links);
      }
    }
  }

  // ----- below directories that are found -----

  lemma {:induction false} OutlivesByPolicy(ns: seq<Node>, fs: seq<Found>, links: Links)
    requires Locate(ns, links).Some? && SeesDirectories(fs, links, |links| - 1) && Sight(fs, links).None?
    ensures Outlives(ns, fs, links) <==> !Locate(ns, links).value.policy.Mirror?
    decreases |links|
  {
    hide FindFound;
    if |links| > 1 { OutlivesByPolicy(Lookup(ns, links[0]).value.subs, FindFound(fs, links[0]).value.children, links[1..]); }
  }

  /** A path in a directory that is found. If it is not found any more, it is wiped with everything below it
      if it is mirrored, and stays with its history if it is copied; if it is found, it has one point. */
  lemma {:induction false} CopiedOrMirrored(env: Env, root: SearchNode, ns: seq<Node>, fs: seq<Found>, links: Links)
    requires Expected(env, RootRule(root), ns) && AllPlain(ns) && AllObey(env, RootRule(root), fs) && DistinctPaths(fs)
    requires SingleBy(env, RootRule(root), links) && Locate(ns, links).Some? && SeesDirectories(fs, links, |links| - 1)
    ensures var t, r := Locate(ns, links).value, Locate(InitiateBackup(env, ns, fs, root), links);
      && t.history != [] && r.Some?
      && (Sight(fs, links).None? && t.policy == Mirror ==> DeepWiped(r.value))
      && (Sight(fs, links).None? && t.policy == Copy ==>
            !Wiped(r.value) && r.value.history == t.history && r.value.hint.core == Exclusive(Removed))
      && (Sight(fs, links).Some? ==> !Wiped(r.value) && Compared(env, t, Sight(fs, links).value, r.value))
  {
    hide RuleFor, Sight, Outlives, Compared, DeepWiped;
    SinglePass(env, RootRule(root), ns, fs, links);
    LocatedSingle(env, RootRule(root), ns, links);
    if Sight(fs, links).None? { OutlivesByPolicy(ns, fs, links); }
  }

  // ----- below a directory that is missing -----

  /** Mirroring does not reach below a missing directory that is copied: of /c, which is copied, and /c/m,
      which is mirrored, nothing is found any more; both stay. */
  lemma {:induction false} MirrorInsideCopyStays(env: Env, s: PathState, t: PathState)
    requires s.Directory? && t.RegularFile?
    ensures var m := Node([47, 99, 47, 109], NoHint, Mirror, [Point(Past(0), t)], []);
      var c := Node([47, 99], NoHint, Copy, [Point(Past(0), s)], [m]);
      var inner := SearchNode(Literal([109]), Mirror, []);
      var root := SearchNode(Literal([47]), NoPolicy, [SearchNode(Literal([99]), Copy, [inner])]);
      var r := Locate(InitiateBackup(env, [c], [], root), [[47, 99], [47, 99, 47, 109]]);
      r.Some? && r.value.policy == Mirror && !Wiped(r.value)
  {
    var m := Node([47, 99, 47, 109], NoHint, Mirror, [Point(Past(0), t)], []);
    var c := Node([47, 99], NoHint, Copy, [Point(Past(0), s)], [m]);
    var root := SearchNode(Literal([47]), NoPolicy, [SearchNode(Literal([99]), Copy, [SearchNode(Literal([109]), Mirror, [])])]);
    assert MergeAll(env, [c], []) == [c];
    assert [47, 99] == AppendPath([], [99]) && !HasSlash([99]);
    SplitAppend([], [99]);
    assert SupposedPolicy(env, c.path, Some(root), NoPolicy) == Some(Copy);
    hide SupposedPolicy;
    var r := MarkRemovedRec(c, true);
    assert HandleNotFound(env, c, Some(root), NoPolicy) == r;
    assert InitiateBackup(env, [c], [], root) == [r];
    assert r.subs == [MarkRemovedRec(m, false)];
    var links: Links := [[47, 99], [47, 99, 47, 109]];
    assert Lookup([r], links[0]) == Some(r) && links[1..] == [[47, 99, 47, 109]];
    assert Lookup(r.subs, [47, 99, 47, 109]) == Some(r.subs[0]);
    assert Locate([r], links) == Some(r.subs[0]);
  }

  // ----- any policy below a missing directory -----

  /** Every node above the path is tracked, or was missing before. */
  predicate TrackedWay(ns: seq<Node>, links: Links)
    decreases |links|
  {
    |links| > 1 ==>
      var n := Lookup(ns, links[0]);
      n.Some? ==> (HeadState(n.value).NonExisting? || n.value.policy.Track?) && TrackedWay(n.value.subs, links[1..])
  }

  /** What marking makes of a node: a removal is recorded of a tracked path that existed, if it is to be. */
  predicate MarkedAs(t: Node, r: Node, extend: bool) {
    && !Wiped(r) && t.history != []
    && if t.history[0].state.NonExisting? then r.history == t.history && r.hint.core == Exclusive(Unchanged)
       else
         && r.hint.core == Exclusive(Removed)
         && r.history == if extend && t.policy.Track? then [Point(Current, NonExisting)] + t.history else t.history
  }

  lemma {:induction false} MarkedBelow(ns: seq<Node>, links: Links, extend: bool)
    requires AllUntouched(ns) && Locate(ns, links).Some?
    ensures var r := Locate(MarkRemovedAll(ns, extend), links);
      r.Some? && MarkedAs(Locate(ns, links).value, r.value, extend && TrackedWay(ns, links))
    decreases |links|
  {
    hide MarkRemovedRec;
    var rs := MarkRemovedAll(ns, extend);
    forall i | 0 <= i < |ns| ensures rs[i].path == ns[i].path { MarkKeepsPath(ns[i], extend); }
    SamePathsLookup(ns, rs, links[0]);
    var n := Lookup(ns, links[0]).value;
    UntouchedSubs(n);
    assert Lookup(rs, links[0]).value == MarkRemovedRec(n, extend);
    MarkedOne(n, extend);
    if |links| > 1 {
      MarkedBelow(n.subs, links[1..], ExtendBelow(n, extend));
    } else {
      MarkedHere(n, extend);
    }
  }

  lemma {:induction false} MarkedHere(n: Node, extend: bool)
    requires Untouched(n)
    ensures MarkedAs(n, MarkRemovedRec(n, extend), extend)
  {
    UntouchedSubs(n);
  }

  /** Below a missing directory: if that is mirrored, everything goes. Otherwise everything stays, and a
      tracked path records that it is missing only if all directories down to it are tracked, too. */
  lemma {:induction false} MissingBelow(env: Env, root: SearchNode, ns: seq<Node>, fs: seq<Found>, links: Links)
    requires Expected(env, RootRule(root), ns) && AllPlain(ns) && DistinctPaths(fs)
    requires Locate(ns, links).Some? && FindFound(fs, links[0]).None?
    requires Lookup(ns, links[0]).value.policy.NoPolicy? ==> |links| > 1
    ensures var n, t, r := Lookup(ns, links[0]).value, Locate(ns, links).value, Locate(InitiateBackup(env, ns, fs, root), links);
      r.Some? && if n.policy == Mirror then DeepWiped(r.value) else MarkedAs(t, r.value, TrackedWay(ns, links))
  {
    hide RuleFor, HandleNotFound, MergeAll, MarkRemovedRec, MarkRemovedAll;
    var rule := RootRule(root);
    ListedLookup(env, rule, ns, fs, links[0]);
    ExpectedLink(env, rule, ns, links[0]);
    var n := Lookup(ns, links[0]).value;
    MissingBecomes(env, rule, n);
    UntouchedSubs(n);
    if n.policy.Mirror? {
      WipeRecDeep(n);
      if |links| > 1 {
        WipedSubs(n);
        WipedGoes(n.subs, links[1..]);
      }
    } else {
      MarkedOne(n, true);
      if |links| > 1 { MarkedBelow(n.subs, links[1..], ExtendBelow(n, true)); } else { MarkedHere(n, true); }
    }
  }
}
