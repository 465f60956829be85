/** Copied and mirrored paths over whole runs: a copied path keeps the last entry that any run saw, a mirrored
    one has what the last run saw. */
module UntrackedRuns {
  import opened Data
  import opened Str
  import opened Metadata
  import opened Backup
  import opened BackupFrame
  import opened RefCountsExact
  import opened History
  import opened Wiping
  import opened FixedConfig
  import opened RepoPath
  import opened BlobStore
  import opened Finishing
  import opened Codec
  import opened Renumber
  import opened GarbageCollector
  import opened Stock
  import opened Runs
  import opened Chains
  import opened TimeTravel
  import opened Naming
  import opened Search
  import opened FileSystem
  import Restore
  import opened EndToEnd
  import opened Sightings
  import opened Session
  import opened Untracked

  /** The metadata has one state of the path, which describes the entry; or it does not have the path. */
  ghost predicate Remembers(env: Env, blobs: Blobs, n: Option<Node>, e: Option<Entry>) {
    && (n.Some? <==> e.Some?)
    && (n.Some? ==> |n.value.history| == 1 && Describes(env, blobs, n.value.history[0].state, e))
  }

  /** What a run leaves of what was known. */
  function Recalled(ns: seq<Node>, run: Run, links: Links, last: Option<Entry>): Option<Entry> {
    var seen := Sight(run.found, links);
    if seen.Some? then Some(seen.value.entry)
    else if last.Some? && Outlives(ns, run.found, links) then last
    else None
  }

  // ----- the state after a run -----

  lemma {:induction false} SightIsSingle(env: Env, rule: Rule, fs: seq<Found>, links: Links, files: map<Bytes, Entry>)
    requires AllObey(env, rule, fs) && DistinctPaths(fs) && AllSteady(fs, files) && SingleBy(env, rule, links)
    requires Sight(fs, links).Some?
    ensures var f := Sight(fs, links).value;
      f.path == links[|links| - 1] && !f.entry.Other? && Single(f.policy) && Steady(f, files)
    decreases |links|
  {
    hide RuleFor;
    FoundLink(env, rule, fs, links[0]);
    FindFoundIn(fs, links[0]);
    var f := FindFound(fs, links[0]).value;
    if |links| > 1 { SightIsSingle(env, Rule(f.node, f.policy), f.children, links[1..], files); }
  }

  /** A path that was seen and stored: its state describes what was seen. */
  lemma {:induction false} SeenDescribed(env: Env, files: map<Bytes, Entry>, a: Blobs, b: Blobs, t: Option<Node>, last: Option<Entry>, f: Found, n: Node, r: Node)
    requires Remembers(env, a, t, last) && Fares(env, t, Some(f), Some(n), true) && Visible(env, last, Some(f.entry))
    requires t.Some? ==> !t.value.history[0].state.NonExisting?
    requires !f.entry.Other? && Single(f.policy) && f.path == n.path && Steady(f, files)
    requires Finished(env, files, b, n, r) && Extends(a, b)
    ensures |r.history| == 1 && Describes(env, b, r.history[0].state, Some(f.entry))
  {
    hide PathOf, Resolves, Identity, HandleNodeChanges, Visible;
    var w := r.(subs := n.subs);
    assert w.history == r.history;
    if t.None? {
      if f.entry.File? { EmptyResolves(env, b, StateOf(f.entry).info, f.entry.content); }
    } else {
      var s := t.value.history[0].state;
      ComparedDescribes(env, a, s, last, f);
      SingleChanges(env, s, f);
      var (hint, d) := HandleNodeChanges(env, NoHint, s, f);
      assert n.history[0].state == d;
      if NeedsFinish(n) {
        assert StoresContent(hint) && f.entry.File?;
        assert files[n.path] == f.entry;
      } else {
        assert r.history == n.history;
        if d.RegularFile? && d.info.size > 0 { assert !StoresContent(hint); }
        DescribesExtended(env, a, b, d, Some(f.entry));
      }
    }
  }

  /** A path that was not seen and stays. */
  lemma {:induction false} StaysDescribed(env: Env, files: map<Bytes, Entry>, a: Blobs, b: Blobs, t: Node, last: Option<Entry>, n: Node, r: Node)
    requires Remembers(env, a, Some(t), last) && Fares(env, Some(t), None, Some(n), true)
    requires Finished(env, files, b, n, r) && Extends(a, b)
    ensures |r.history| == 1 && Describes(env, b, r.history[0].state, last)
  {
    hide PathOf, Resolves, Identity;
    assert !NeedsFinish(n);
    assert r.(subs := n.subs).history == r.history;
    DescribesExtended(env, a, b, t.history[0].state, last);
  }

  // ----- writing and loading -----

  /** In a closed tree a live node is reached through live nodes. */
  lemma {:induction false} LiveWay(ns: seq<Node>, links: Links)
    requires (forall i :: 0 <= i < |ns| ==> Wiping.Closed(ns[i])) && Locate(ns, links).Some? && !Wiped(Locate(ns, links).value)
    ensures Live(ns, links)
    decreases |links|
  {
    var n := Lookup(ns, links[0]).value;
    if |links| > 1 {
      if Wiped(n) { DeepInside(n.subs, links[1..]); }
      LiveWay(n.subs, links[1..]);
    }
  }

  lemma {:induction false} DeepInside(ns: seq<Node>, links: Links)
    requires (forall i :: 0 <= i < |ns| ==> DeepWiped(ns[i])) && Locate(ns, links).Some?
    ensures Wiped(Locate(ns, links).value)
    decreases |links|
  {
    var n := Lookup(ns, links[0]).value;
    if |links| > 1 { DeepInside(n.subs, links[1..]); }
  }

  /** A loaded tree has exactly the live paths. */
  lemma {:induction false} NormLocate(ns: seq<Node>, ids: Ids, parent: Bytes, links: Links)
    requires PlacedList(ns, parent)
    ensures Locate(NormNodes(ns, ids), links) ==
      if Locate(ns, links).Some? && Live(ns, links) then Some(NormNode(Locate(ns, links).value, ids)) else None
    decreases |links|
  {
    hide NormNode, NormNodes, Placed;
    assert Sole(ns, links[0]);
    NormLookup(ns, ids, links[0]);
    if Lookup(ns, links[0]).Some? && |links| > 1 {
      var i := IndexOf(ns, links[0]);
      NormPath(ns[i], ids);
      PlacedInside(ns[i], parent);
      NormLocate(ns[i].subs, ids, ns[i].path, links[1..]);
    }
  }

  lemma {:induction false} PlacedInside(n: Node, parent: Bytes)
    requires Placed(n, parent)
    ensures PlacedList(n.subs, n.path)
  {
    hide PlacedSelf;
  }

  lemma {:induction false} WipedIsNotLive(ns: seq<Node>, links: Links)
    requires Locate(ns, links).Some? && Wiped(Locate(ns, links).value)
    ensures !Live(ns, links)
    decreases |links|
  {
    if |links| > 1 { WipedIsNotLive(Lookup(ns, links[0]).value.subs, links[1..]); }
  }

  /** What is written, collected and loaded is still remembered. */
  lemma {:induction false} LoadedRemembers(env: Env, l: Ledger, blobs: Blobs, ns: seq<Node>, links: Links, e: Option<Entry>)
    requires ValidLedger(l) && AllHeld(l, ns) && PlacedList(ns, [])
    requires e.Some? ==> Live(ns, links) && Remembers(env, blobs, Locate(ns, links), e)
    requires e.None? ==> Locate(ns, links).None? || !Live(ns, links)
    ensures Remembers(env, Collect(blobs, Preserved(ns)), Locate(NormNodes(ns, NewIds(l)), links), e)
  {
    hide NewIds, Describes, NormNode, NormNodes, Live, Held, PlacedList, PointPaths, ReferencedPaths, PathOf;
    NormLocate(ns, NewIds(l), [], links);
    if e.Some? {
      var n := Locate(ns, links).value;
      var s := n.history[0].state;
      LocatedReferenced(l, ns, links);
      NormPath(n, NewIds(l));
      assert NormHistory(n.history, NewIds(l))[0].state == NormState(s);
      if Stored(s) { PointIsReferenced(n.history, 0); }
      DescribesElsewhere(env, blobs, Collect(blobs, Preserved(ns)), s, e);
      DescribesNorm(env, Collect(blobs, Preserved(ns)), s, e);
    }
  }

  // ----- one run -----

  lemma {:induction false} OldExists(env: Env, root: SearchNode, s: Repo, links: Links)
    requires Sound(env, root, s) && SingleBy(env, RootRule(root), links) && Locate(s.paths, links).Some?
    ensures var h := Locate(s.paths, links).value.history; |h| == 1 && !h[0].state.NonExisting?
  {
    hide StoreOk, RuleFor;
    LocatedHistory(s.paths, links);
    LocatedSingle(env, RootRule(root), s.paths, links);
    UntouchedSubs(Locate(s.paths, links).value);
  }

  /** What the pass and finishing leave of the path. */
  lemma {:induction false} RunFares(env: Env, root: SearchNode, s: Repo, run: Run, links: Links, last: Option<Entry>)
    requires Sound(env, root, s) && ProperRun(env, root, run) && SingleBy(env, RootRule(root), links)
    requires FinishList(env, run.files, s.blobs, Searched(env, root, s, run)).Some?
    requires Remembers(env, s.blobs, Locate(s.paths, links), last) && Visible(env, last, EntryOf(Sight(run.found, links)))
    ensures var (blobs, ns) := FinishList(env, run.files, s.blobs, Searched(env, root, s, run)).value;
      var e := Recalled(s.paths, run, links, last);
      && (e.Some? ==> Live(ns, links) && Remembers(env, blobs, Locate(ns, links), e))
      && (e.None? ==> Locate(ns, links).None? || !Live(ns, links))
  {
    hide StoreOk, Stocked, FinishList, Finished, InitiateBackup, RuleFor, Outlives, Describes, Visible, Remembers, PathOf, DistinctPaths;
    var before := Searched(env, root, s, run);
    var rule := RootRule(root);
    SearchedInOrder(env, root, s, run);
    FinishListLaw(env, run.files, s.blobs, before);
    var (blobs, ns) := FinishList(env, run.files, s.blobs, before).value;
    SearchedFares(env, root, s, run, links);
    FinishedChain(env, run.files, blobs, before, ns, links);
    var t, n, f := Locate(s.paths, links), Locate(before, links), Sight(run.found, links);
    assert last.Some? <==> t.Some? by { assert Remembers(env, s.blobs, t, last); RemembersBoth(env, s.blobs, t, last); }
    if t.Some? { OldExists(env, root, s, links); }
    if Recalled(s.paths, run, links, last).Some? {
      SearchedLive(env, root, s, run, links);
      if f.Some? {
        SightIsSingle(env, rule, run.found, links, run.files);
        LocatedPath(before, links);
        SeenDescribed(env, run.files, s.blobs, blobs, t, last, f.value, n.value, Locate(ns, links).value);
      } else {
        StaysDescribed(env, run.files, s.blobs, blobs, t.value, last, n.value, Locate(ns, links).value);
      }
      assert Remembers(env, blobs, Locate(ns, links), Recalled(s.paths, run, links, last)) by { RemembersWhen(env, blobs, Locate(ns, links).value, Recalled(s.paths, run, links, last)); }
    } else if n.Some? {
      FinishedWiped(env, run.files, blobs, n.value, Locate(ns, links).value);
      WipedIsNotLive(ns, links);
    }
  }

  lemma {:induction false} RemembersBoth(env: Env, blobs: Blobs, n: Option<Node>, e: Option<Entry>)
    requires Remembers(env, blobs, n, e)
    ensures n.Some? <==> e.Some?
  {
    hide Describes;
  }

  lemma {:induction false} RemembersWhen(env: Env, blobs: Blobs, n: Node, e: Option<Entry>)
    requires e.Some? && |n.history| == 1 && Describes(env, blobs, n.history[0].state, e)
    ensures Remembers(env, blobs, Some(n), e)
  {
    hide Describes;
  }

  lemma {:induction false} FinishedWiped(env: Env, files: map<Bytes, Entry>, blobs: Blobs, n: Node, r: Node)
    requires Finished(env, files, blobs, n, r) && Wiped(n)
    ensures Wiped(r)
  {
    hide Resolves;
    assert r.(subs := n.subs).hint == r.hint;
  }

  lemma {:induction false} SearchedFares(env: Env, root: SearchNode, s: Repo, run: Run, links: Links)
    requires Sound(env, root, s) && ProperRun(env, root, run) && SingleBy(env, RootRule(root), links)
    ensures Fares(env, Locate(s.paths, links), Sight(run.found, links), Locate(Searched(env, root, s, run), links), Outlives(s.paths, run.found, links))
  {
    hide StoreOk, Stocked, RuleFor, Outlives, Fares, Sight;
    SinglePass(env, RootRule(root), s.paths, run.found, links);
  }

  lemma {:induction false} SearchedLive(env: Env, root: SearchNode, s: Repo, run: Run, links: Links)
    requires Sound(env, root, s) && ProperRun(env, root, run)
    requires Locate(Searched(env, root, s, run), links).Some? && !Wiped(Locate(Searched(env, root, s, run), links).value)
    ensures Live(Searched(env, root, s, run), links)
  {
    hide StoreOk, Stocked, RuleFor, InitiateBackup;
    EverythingTyped(env, RootRule(root), s.paths, run.found);
    NothingBlocked(env, RootRule(root), s.paths, run.found);
    PassKeepsShape(env, s.paths, run.found, root);
    LiveWay(Searched(env, root, s, run), links);
  }

  /** One run, up to loading its result: what is known of the path afterwards. */
  lemma {:induction false} RunRemembers(env: Env, root: SearchNode, s: Repo, run: Run, links: Links, last: Option<Entry>)
    requires Orderly(env, root, s) && WritableRun(env, root, run) && Feasible(env, root, s, run)
    requires SingleBy(env, RootRule(root), links)
    requires Remembers(env, s.blobs, Locate(s.paths, links), last) && Visible(env, last, EntryOf(Sight(run.found, links)))
    ensures Next(env, root, s, run).Some?
    ensures var r := Next(env, root, s, run).value;
      Remembers(env, r.blobs, Locate(r.paths, links), Recalled(s.paths, run, links, last))
  {
    hide Sound, FinishList, Searched, LedgerAfter, CountAfter, Next, NewIds, NewTimes, ProperRun, PlacedList, AllWritable, SmallList, Completes, Live, Remembers, Recalled, Visible, Collect, Preserved, SingleBy, NormNodes, InOrder, StoreOk;
    OrderlyIsSound(env, root, s);
    assert ProperRun(env, root, run);
    FeasibleCompletes(env, root, s, run);
    RunKeepsSound(env, root, s, run);
    NextIs(env, root, s, run);
    RunWrites(env, root, s, run);
    WrittenPlaced(env, root, s, run);
    RunFares(env, root, s, run, links, last);
    var (blobs, ns) := FinishList(env, run.files, s.blobs, Searched(env, root, s, run)).value;
    LoadedRemembers(env, LedgerAfter(env, root, s, run), blobs, ns, links, Recalled(s.paths, run, links, last));
  }

  // ----- any number of runs -----

  /** What is known of the path after some runs. */
  function Memory(env: Env, root: SearchNode, rs: seq<Run>, links: Links): Option<Entry> {
    if rs == [] then None
    else
      var k := |rs| - 1;
      var s :- After(env, root, rs[..k]);
      Recalled(s.paths, rs[k], links, Memory(env, root, rs[..k], links))
  }

  /** Every content change is one that the comparison can notice. */
  ghost predicate Noticed(env: Env, root: SearchNode, rs: seq<Run>, links: Links) {
    rs == [] ||
    (var k := |rs| - 1;
     && Noticed(env, root, rs[..k], links)
     && Visible(env, Memory(env, root, rs[..k], links), EntryOf(Sight(rs[k].found, links))))
  }

  lemma {:induction false} MadeRemembers(env: Env, root: SearchNode, ws: seq<World>, rs: seq<Run>, links: Links)
    requires ProperRoot(root) && Made(env, root, ws, rs) && SingleBy(env, RootRule(root), links) && Noticed(env, root, rs, links)
    ensures After(env, root, rs).Some?
    ensures var s := After(env, root, rs).value; Remembers(env, s.blobs, Locate(s.paths, links), Memory(env, root, rs, links))
    decreases |rs|
  {
    hide Searches, ProperRoot, Feasible, Next, Orderly, WritableRun, Remembers, Recalled, Visible, SingleBy;
    if rs == [] {
      assert Remembers(env, Blank.blobs, Locate(Blank.paths, links), None) by { NothingRemembered(env, links); }
    } else {
      var k := |rs| - 1;
      MadeIsOrderly(env, root, ws[..k], rs[..k]);
      MadeRemembers(env, root, ws[..k], rs[..k], links);
      SearchIsRun(env, root, ws[k], rs[k]);
      RunRemembers(env, root, After(env, root, rs[..k]).value, rs[k], links, Memory(env, root, rs[..k], links));
    }
  }

  lemma {:induction false} NothingRemembered(env: Env, links: Links)
    ensures Remembers(env, map[], Locate([], links), None)
  {
  }

  // ----- what that is -----

  /** The policy that the config gives a path. */
  function PolicyBy(env: Env, rule: Rule, links: Links): Option<Policy>
    decreases |links|
  {
    var r :- RuleFor(env, rule, links[0]);
    if |links| == 1 then Some(r.policy) else PolicyBy(env, r, links[1..])
  }

  lemma {:induction false} LocatedPolicy(env: Env, rule: Rule, ns: seq<Node>, links: Links)
    requires AllConform(env, rule, ns) && Locate(ns, links).Some?
    ensures PolicyBy(env, rule, links) == Some(Locate(ns, links).value.policy)
    decreases |links|
  {
    hide RuleFor;
    var n := Lookup(ns, links[0]).value;
    assert Conforms(env, rule, n);
    if |links| > 1 { LocatedPolicy(env, RuleFor(env, rule, links[0]).value, n.subs, links[1..]); }
  }

  lemma {:induction false} SingleByPolicy(env: Env, rule: Rule, links: Links)
    ensures SingleBy(env, rule, links) <==> PolicyBy(env, rule, links) == Some(Copy) || PolicyBy(env, rule, links) == Some(Mirror)
    decreases |links|
  {
    hide RuleFor;
    if RuleFor(env, rule, links[0]).Some? && |links| > 1 { SingleByPolicy(env, RuleFor(env, rule, links[0]).value, links[1..]); }
  }

  /** Everything above the path is found as a directory by every run. */
  ghost predicate AlwaysInside(rs: seq<Run>, links: Links) {
    forall k :: 0 <= k < |rs| ==> SeesDirectories(rs[k].found, links, |links| - 1)
  }

  /** The last entry that the file system showed to any of the searches. */
  function LastShown(env: Env, root: SearchNode, ws: seq<World>, links: Links): Option<Entry> {
    if ws == [] then None
    else
      var e := WorldSight(env, ws[|ws| - 1], RootRule(root), [], links);
      if e.Some? then e else LastShown(env, root, ws[..|ws| - 1], links)
  }

  lemma {:induction false} RecalledByPolicy(env: Env, root: SearchNode, s: Repo, run: Run, links: Links, last: Option<Entry>)
    requires Sound(env, root, s) && SeesDirectories(run.found, links, |links| - 1)
    requires Remembers(env, s.blobs, Locate(s.paths, links), last)
    ensures var seen := EntryOf(Sight(run.found, links));
      && (PolicyBy(env, RootRule(root), links) == Some(Mirror) ==> Recalled(s.paths, run, links, last) == seen)
      && (PolicyBy(env, RootRule(root), links) == Some(Copy) ==> Recalled(s.paths, run, links, last) == if seen.Some? then seen else last)
  {
    hide StoreOk, Outlives, Sight, Describes, PolicyBy, RuleFor;
    if Locate(s.paths, links).Some? {
      LocatedPolicy(env, RootRule(root), s.paths, links);
      if Sight(run.found, links).None? { OutlivesByPolicy(s.paths, run.found, links); }
    }
  }

  /** Over any number of runs that find the directories above it, a copied path keeps the last entry that the
      file system ever showed of it, and a mirrored path has what the file system showed last. */
  lemma {:induction false} MemoryIsLast(env: Env, root: SearchNode, ws: seq<World>, rs: seq<Run>, links: Links)
    requires ProperRoot(root) && Made(env, root, ws, rs) && SingleBy(env, RootRule(root), links) && Noticed(env, root, rs, links)
    requires AlwaysInside(rs, links) && Ladder(links, [])
    ensures PolicyBy(env, RootRule(root), links) == Some(Copy) ==> Memory(env, root, rs, links) == LastShown(env, root, ws, links)
    ensures PolicyBy(env, RootRule(root), links) == Some(Mirror) ==>
      Memory(env, root, rs, links) == if rs == [] then None else WorldSight(env, ws[|rs| - 1], RootRule(root), [], links)
    decreases |rs|
  {
    hide Searches, ProperRoot, Feasible, Next, Orderly, WritableRun, Remembers, Recalled, Visible, SingleBy, WorldSight, Sight, Ladder, SeesDirectories, PolicyBy;
    if rs != [] {
      var k := |rs| - 1;
      AlwaysBefore(rs, links);
      MemoryIsLast(env, root, ws[..k], rs[..k], links);
      MadeIsOrderly(env, root, ws[..k], rs[..k]);
      MadeRemembers(env, root, ws[..k], rs[..k], links);
      SeenIsShown(env, root, ws[k], rs[k], links);
      OrderlyIsSound(env, root, After(env, root, rs[..k]).value);
      RecalledByPolicy(env, root, After(env, root, rs[..k]).value, rs[k], links, Memory(env, root, rs[..k], links));
    }
  }

  lemma {:induction false} AlwaysBefore(rs: seq<Run>, links: Links)
    requires AlwaysInside(rs, links) && rs != []
    ensures AlwaysInside(rs[..|rs| - 1], links) && SeesDirectories(rs[|rs| - 1].found, links, |links| - 1)
  {
    hide SeesDirectories;
  }

  /** Restoring the path yields what is known of it. */
  lemma {:induction false} RestoreYieldsMemory(env: Env, root: SearchNode, ws: seq<World>, rs: seq<Run>, links: Links, id: nat, disk: Entries)
    requires ProperRoot(root) && Made(env, root, ws, rs) && SingleBy(env, RootRule(root), links) && Noticed(env, root, rs, links)
    requires After(env, root, rs).Some? && Locate(After(env, root, rs).value.paths, links).Some?
    requires var s := After(env, root, rs).value; var n := Locate(s.paths, links).value;
      Restore.ExistingState(n, id).Some? ==> Restore.RestoredSelf(s.blobs, disk, n, Restore.ExistingState(n, id).value)
    ensures var n := Locate(After(env, root, rs).value.paths, links).value;
      Restore.ExistingState(n, id).Some? && n.path in disk && Memory(env, root, rs, links) == Some(disk[n.path])
  {
    hide Made, ProperRoot, SingleBy, Noticed, After, Memory, Describes, Restore.Matches;
    var s, e := After(env, root, rs).value, Memory(env, root, rs, links);
    MadeRemembers(env, root, ws, rs, links);
    MadeIsOrderly(env, root, ws, rs);
    OrderlyIsSound(env, root, s);
    OldExists(env, root, s, links);
    var n := Locate(s.paths, links).value;
    LocatedSingle(env, RootRule(root), s.paths, links);
    assert Restore.ExistingState(n, id) == Some(n.history[0].state);
    MatchesWhatWasSeen(env, s.blobs, n.history[0].state, e, disk[n.path]);
  }
}
