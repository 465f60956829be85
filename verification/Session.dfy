/** The whole program at work: a config is parsed, backups are made by searching and storing, and a
    path is restored to any of them. What is restored is what the backup saw. */
module Session {
  import opened Data
  import opened Str
  import opened Metadata
  import opened Backup
  import opened BackupFrame
  import opened RefCountsExact
  import opened History
  import opened RepoPath
  import opened BlobStore
  import opened Codec
  import opened Renumber
  import opened Finishing
  import opened FixedConfig
  import opened Stock
  import opened Runs
  import opened Chains
  import opened TimeTravel
  import opened Naming
  import opened Search
  import opened SearchRules
  import opened SearchNames
  import opened SearchTree
  import opened ConfigTree
  import opened FileSystem
  import opened Restore
  import opened EndToEnd
  import opened Sightings

  // ----- restoring one path -----

  function Goal(links: Links): Bytes { links[|links| - 1] }

  /** Every link existed at the id, and all but the last one as a directory. */
  predicate Standing(ns: seq<Node>, links: Links, id: nat)
    decreases |links|
  {
    var n := Lookup(ns, links[0]);
    n.Some? && var s := ExistingState(n.value, id);
    s.Some? && (|links| > 1 ==> s.value.Directory? && Standing(n.value.subs, links[1..], id))
  }

  lemma {:induction false} GoalIsBelow(links: Links, dir: Bytes)
    requires Ladder(links, dir)
    ensures Below(Goal(links), links[0]) && (|links| > 1 ==> Goal(links) != links[0])
    ensures Below(Goal(links), dir) && Goal(links) != dir && !EndsWithSlash(Goal(links))
    decreases |links|
  {
    hide EndsWithSlash;
    ChildBelow(dir, links[0]);
    if |links| > 1 {
      GoalIsBelow(links[1..], links[0]);
      BelowTrans(Goal(links), links[0], dir);
      assert !Below(dir, links[0]);
    }
  }

  lemma {:induction false} AboveIsParent(parent: Bytes, path: Bytes)
    requires Below(path, parent) && path != parent && !EndsWithSlash(path)
    ensures IsParentPath(parent, path)
  {
  }

  /** A sibling of the first link is not on the way. */
  lemma {:induction false} NotOnTheWay(p: Bytes, links: Links, dir: Bytes)
    requires Ladder(links, dir) && IsChild(dir, p) && p != links[0]
    ensures p != Goal(links) && !IsParentPath(p, Goal(links))
  {
    hide IsParentPath;
    GoalIsBelow(links, dir);
    SiblingsOutside(dir, links[0], p, Goal(links));
    if IsParentPath(p, Goal(links)) { ParentIsAbove(p, Goal(links)); }
  }

  /** A request for a path can be planned exactly if the path existed at the id, below directories
      that existed at the id. */
  lemma {:induction false} PlannedIffStanding(env: Env, disk: Entries, ns: seq<Node>, dir: Bytes, id: nat, links: Links, couldExist: bool)
    requires NamedList(ns, dir) && Ladder(links, dir)
    ensures InitiateList(env, disk, ns, id, Goal(links), couldExist).Some? <==> Standing(ns, links, id)
    decreases ns
  {
    hide IsParentPath, CheckedHint, CheckNode, ExistingState, EndsWithSlash;
    GoalIsBelow(links, dir);
    if ns != [] {
      var n := ns[0];
      if n.path == links[0] {
        assert Lookup(ns, links[0]) == Some(n);
        if |links| > 1 {
          AboveIsParent(n.path, Goal(links));
          var s := ExistingState(n, id);
          if s.Some? {
            assert Named(n);
            var h := CheckedHint(env, disk, n, s.value, couldExist);
            PlannedIffStanding(env, disk, n.subs, n.path, id, links[1..], couldExist && !Replaced(h));
            assert Goal(links[1..]) == Goal(links);
          }
        }
      } else {
        NotOnTheWay(n.path, links, dir);
        RestIsNamed(ns, dir);
        PlannedIffStanding(env, disk, ns[1..], dir, id, links, couldExist);
        assert Lookup(ns, links[0]) == Lookup(ns[1..], links[0]);
      }
    }
  }

  lemma {:induction false} RestIsNamed(ns: seq<Node>, dir: Bytes)
    requires NamedList(ns, dir) && ns != []
    ensures NamedList(ns[1..], dir)
  {
    assert forall i :: 0 <= i < |ns[1..]| ==> ns[1..][i] == ns[i + 1];
  }

  /** After a restore the path has the recorded entry. */
  lemma {:induction false} StandingIsRestored(blobs: Blobs, a: Entries, ns: seq<Node>, dir: Bytes, links: Links, id: nat)
    requires NamedList(ns, dir) && Ladder(links, dir) && Standing(ns, links, id)
    requires AllRestored(blobs, a, ns, id, Goal(links))
    ensures Locate(ns, links).Some?
    ensures var n := Locate(ns, links).value; ExistingState(n, id).Some? && RestoredSelf(blobs, a, n, ExistingState(n, id).value)
    decreases |links|
  {
    hide ExistingState, RestoredSelf;
    GoalIsBelow(links, dir);
    var i := IndexOf(ns, links[0]);
    var n := ns[i];
    assert Lookup(ns, links[0]) == Some(n) && n.path == links[0];
    assert Restored(blobs, a, n, id, Goal(links)) && InScope(n.path, Goal(links));
    if |links| > 1 {
      assert Named(n) && Goal(links[1..]) == Goal(links);
      StandingIsRestored(blobs, a, n.subs, n.path, links[1..], id);
    }
  }

  // ----- making backups -----

  /** The run is made by a search, and its files do not change until they are stored. */
  ghost predicate Searches(env: Env, root: SearchNode, w: World, run: Run) {
    UsualWorld(w) && SearchAll(env, w, root) == Some(run.found) && AllSteady(run.found, run.files)
  }

  /** A config that follows its own rules, and does not list the root directory. */
  predicate ProperRoot(root: SearchNode) { ProperTree(root) && LoadableTree(root) && IsDirect(Some(root)) }

  lemma {:induction false} SearchIsRun(env: Env, root: SearchNode, w: World, run: Run)
    requires ProperRoot(root) && Searches(env, root, w, run)
    ensures WritableRun(env, root, run)
  {
    hide ProperTree, LoadableTree, IsDirect, SearchAll, PlainWorld;
    SearchFollowsConfig(env, w, root);
    SearchIsWritable(env, w, root);
  }

  /** Every run follows a search of the file system as it was, and can be stored. */
  ghost predicate Made(env: Env, root: SearchNode, ws: seq<World>, rs: seq<Run>)
    decreases |rs|
  {
    |ws| == |rs| &&
    (rs == [] ||
     (var k := |rs| - 1;
      && Made(env, root, ws[..k], rs[..k])
      && Searches(env, root, ws[k], rs[k])
      && (After(env, root, rs[..k]).Some? ==> Feasible(env, root, After(env, root, rs[..k]).value, rs[k]))))
  }

  /** Such runs always succeed, and leave everything in order. */
  lemma {:induction false} MadeIsOrderly(env: Env, root: SearchNode, ws: seq<World>, rs: seq<Run>)
    requires ProperRoot(root) && Made(env, root, ws, rs)
    ensures After(env, root, rs).Some? && Orderly(env, root, After(env, root, rs).value)
    decreases |rs|
  {
    hide Searches, ProperRoot, Feasible, Next, Sound, WritableRun;
    if rs == [] {
      BlankIsSound(env, root);
    } else {
      var k := |rs| - 1;
      MadeIsOrderly(env, root, ws[..k], rs[..k]);
      SearchIsRun(env, root, ws[k], rs[k]);
      RunKeepsOrder(env, root, After(env, root, rs[..k]).value, rs[k]);
    }
  }

  /** What time travel relies on for a path: its leading links are found as directories by every run,
      and every content change is one that the comparison can notice. */
  ghost predicate WatchedAt(env: Env, rs: seq<Run>, links: Links, dirs: nat, k: nat)
    requires k < |rs|
  {
    SeesDirectories(rs[k].found, links, dirs) && Visible(env, LastEntry(rs[..k], links), EntryOf(Sight(rs[k].found, links)))
  }

  ghost predicate Watched(env: Env, rs: seq<Run>, links: Links, dirs: nat) {
    forall k :: 0 <= k < |rs| ==> WatchedAt(env, rs, links, dirs, k)
  }

  lemma {:induction false} WatchedBefore(env: Env, rs: seq<Run>, links: Links, dirs: nat, n: nat)
    requires Watched(env, rs, links, dirs) && n <= |rs|
    ensures Watched(env, rs[..n], links, dirs)
  {
    hide SeesDirectories, Visible, LastEntry, Sight;
    forall k | 0 <= k < n ensures WatchedAt(env, rs[..n], links, dirs, k) {
      assert WatchedAt(env, rs, links, dirs, k) && rs[..n][..k] == rs[..k] && rs[..n][k] == rs[k];
    }
  }

  lemma {:induction false} MadeIsUsual(env: Env, root: SearchNode, ws: seq<World>, rs: seq<Run>, links: Links, dirs: nat)
    requires ProperRoot(root) && Made(env, root, ws, rs) && Watched(env, rs, links, dirs)
    ensures Usual(env, root, rs, links, dirs)
    decreases |rs|
  {
    hide Searches, ProperRoot, Feasible, Next, Orderly, WritableRun, SeesDirectories, Visible, LastEntry, Sight, Completes;
    if rs != [] {
      var k := |rs| - 1;
      MadeIsOrderly(env, root, ws[..k], rs[..k]);
      WatchedBefore(env, rs, links, dirs, k);
      MadeIsUsual(env, root, ws[..k], rs[..k], links, dirs);
      SearchIsRun(env, root, ws[k], rs[k]);
      FeasibleCompletes(env, root, After(env, root, rs[..k]).value, rs[k]);
      assert ProperRun(env, root, rs[k]) by { WritableIsProper(env, root, rs[k]); }
      assert WatchedAt(env, rs, links, dirs, k);
    }
  }

  lemma {:induction false} WritableIsProper(env: Env, root: SearchNode, run: Run)
    requires WritableRun(env, root, run)
    ensures ProperRun(env, root, run)
  {
    hide ProperRun;
  }

  /** What a run saw of a path is what the file system showed when it was searched. */
  lemma {:induction false} SeenIsShown(env: Env, root: SearchNode, w: World, run: Run, links: Links)
    requires ProperRoot(root) && Searches(env, root, w, run) && Ladder(links, [])
    ensures EntryOf(Sight(run.found, links)) == WorldSight(env, w, RootRule(root), [], links)
  {
    hide Genuine, Sight, WorldSight, SearchAll, ProperTree, DistinctPaths, Ladder;
    SearchIsGenuine(env, w, root);
    SearchFollowsConfig(env, w, root);
    SightIsGenuine(env, w, RootRule(root), [], run.found, links);
  }

  // ----- the links above a path -----

  lemma {:induction false} TrackedPrefix(env: Env, rule: Rule, links: Links, k: nat)
    requires TrackedBy(env, rule, links) && 0 < k <= |links|
    ensures TrackedBy(env, rule, links[..k])
    decreases |links|
  {
    if k > 1 {
      assert links[..k][1..] == links[1..][..k - 1];
      TrackedPrefix(env, RuleFor(env, rule, links[0]).value, links[1..], k - 1);
    }
  }

  lemma {:induction false} CoveredPrefix(env: Env, rule: Rule, links: Links, dirs: nat, k: nat)
    requires CoveredBy(env, rule, links, dirs) && dirs < k <= |links|
    ensures CoveredBy(env, rule, links[..k], dirs)
    decreases |links|
  {
    hide RuleFor;
    if dirs == 0 {
      TrackedPrefix(env, rule, links, k);
    } else {
      assert links[..k][1..] == links[1..][..k - 1];
      CoveredPrefix(env, RuleFor(env, rule, links[0]).value, links[1..], dirs - 1, k - 1);
    }
  }

  lemma {:induction false} DirsAreFew(env: Env, rule: Rule, links: Links, dirs: nat)
    requires CoveredBy(env, rule, links, dirs)
    ensures dirs < |links|
    decreases |links|
  {
    hide RuleFor, TrackedBy;
    if dirs > 0 { DirsAreFew(env, RuleFor(env, rule, links[0]).value, links[1..], dirs - 1); }
  }

  /** What is seen of a path shows the directories above it. */
  lemma {:induction false} SightAbove(fs: seq<Found>, links: Links, k: nat)
    requires 0 < k < |links| && Sight(fs, links).Some?
    ensures Sight(fs, links[..k]).Some? && Sight(fs, links[..k]).value.entry.Dir?
    decreases |links|
  {
    hide FindFound;
    if k > 1 {
      assert links[..k][1..] == links[1..][..k - 1];
      SightAbove(FindFound(fs, links[0]).value.children, links[1..], k - 1);
    }
  }

  lemma {:induction false} DirectoriesAbove(fs: seq<Found>, links: Links, dirs: nat, k: nat)
    requires SeesDirectories(fs, links, dirs) && 0 < k <= dirs && k < |links|
    ensures SeesDirectories(fs, links[..k], k - 1)
    ensures Sight(fs, links[..k]).Some? && Sight(fs, links[..k]).value.entry.Dir?
    decreases |links|
  {
    hide FindFound;
    if k > 1 {
      assert links[..k][1..] == links[1..][..k - 1];
      DirectoriesAbove(FindFound(fs, links[0]).value.children, links[1..], dirs - 1, k - 1);
    }
  }

  lemma {:induction false} LocatedAbove(ns: seq<Node>, links: Links, k: nat)
    requires 0 < k <= |links| && Locate(ns, links).Some?
    ensures Locate(ns, links[..k]).Some?
    decreases |links|
  {
    if k == |links| {
      assert links[..k] == links;
    } else if k > 1 {
      assert links[..k][1..] == links[1..][..k - 1];
      LocatedAbove(Lookup(ns, links[0]).value.subs, links[1..], k - 1);
    }
  }

  /** A directory that is always found and not tracked has the state of a directory at any time. */
  lemma {:induction false} UntrackedAbove(env: Env, rule: Rule, ns: seq<Node>, links: Links, dirs: nat, k: nat, id: nat)
    requires Expected(env, rule, ns) && CoherentBelow(ns, links, dirs) && 0 < k <= dirs && k < |links|
    requires Locate(ns, links[..k]).Some? && !Locate(ns, links[..k]).value.policy.Track?
    ensures var s := ExistingState(Locate(ns, links[..k]).value, id); s.Some? && s.value.Directory?
    decreases |links|
  {
    hide RuleFor;
    ExpectedLink(env, rule, ns, links[0]);
    if k > 1 {
      assert links[..k][1..] == links[1..][..k - 1];
      UntrackedAbove(env, RuleFor(env, rule, links[0]).value, Lookup(ns, links[0]).value.subs, links[1..], dirs - 1, k - 1, id);
    }
  }

  /** A tracked directory on the way is one that time travel covers. */
  lemma {:induction false} TrackedAbove(env: Env, rule: Rule, ns: seq<Node>, links: Links, dirs: nat, k: nat)
    requires Expected(env, rule, ns) && CoveredBy(env, rule, links, dirs) && 0 < k <= dirs && k < |links|
    requires Locate(ns, links[..k]).Some? && Locate(ns, links[..k]).value.policy.Track?
    ensures CoveredBy(env, rule, links[..k], k - 1)
    decreases |links|
  {
    hide RuleFor;
    ExpectedLink(env, rule, ns, links[0]);
    if k > 1 {
      assert links[..k][1..] == links[1..][..k - 1];
      TrackedAbove(env, RuleFor(env, rule, links[0]).value, Lookup(ns, links[0]).value.subs, links[1..], dirs - 1, k - 1);
    }
  }

  predicate StandsAt(ns: seq<Node>, links: Links, id: nat, inner: bool) {
    var n := Locate(ns, links);
    n.Some? && ExistingState(n.value, id).Some? && (inner ==> ExistingState(n.value, id).value.Directory?)
  }

  lemma {:induction false} StandingByLinks(ns: seq<Node>, links: Links, id: nat)
    requires forall k :: 0 < k <= |links| ==> StandsAt(ns, links[..k], id, k < |links|)
    ensures Standing(ns, links, id)
    decreases |links|
  {
    hide ExistingState;
    assert StandsAt(ns, links[..1], id, 1 < |links|);
    if |links| > 1 {
      var subs := Lookup(ns, links[0]).value.subs;
      forall k | 0 < k <= |links| - 1 ensures StandsAt(subs, links[1..][..k], id, k < |links| - 1) {
        assert StandsAt(ns, links[..k + 1], id, k + 1 < |links|);
        assert links[..k + 1][1..] == links[1..][..k];
      }
      StandingByLinks(subs, links[1..], id);
    }
  }

  // ----- time travel along the way -----

  /** The path and every tracked path above it are watched. */
  ghost predicate WatchedWay(env: Env, rs: seq<Run>, links: Links, dirs: nat) {
    forall k :: dirs < k <= |links| ==> Watched(env, rs, links[..k], dirs)
  }

  lemma {:induction false} DirectoriesAreWatched(env: Env, rs: seq<Run>, links: Links, dirs: nat, k: nat)
    requires Watched(env, rs, links, dirs) && 0 < k <= dirs && k < |links|
    ensures Watched(env, rs, links[..k], k - 1)
  {
    hide SeesDirectories, Sight;
    var way, depth := links[..k], k - 1;
    forall i | 0 <= i < |rs| ensures WatchedAt(env, rs, way, depth, i) {
      assert WatchedAt(env, rs, links, dirs, i);
      DirectoriesAbove(rs[i].found, links, dirs, k);
    }
  }

  /** Time travel works for the path, and for everything above it that is tracked. */
  ghost predicate Trails(env: Env, root: SearchNode, s: Repo, numbers: seq<nat>, rs: seq<Run>, links: Links, dirs: nat) {
    && (forall k :: dirs < k <= |links| ==> Trail(env, root, s, numbers, rs, links[..k], dirs))
    && (forall k :: 0 < k <= dirs && k < |links| ==> TrailIfTracked(env, root, s, numbers, rs, links[..k]))
  }

  ghost predicate TrailIfTracked(env: Env, root: SearchNode, s: Repo, numbers: seq<nat>, rs: seq<Run>, links: Links) {
    CoveredBy(env, RootRule(root), links, |links| - 1) ==> Trail(env, root, s, numbers, rs, links, |links| - 1)
  }

  lemma {:induction false} TrailsHere(env: Env, root: SearchNode, s: Repo, numbers: seq<nat>, rs: seq<Run>, links: Links, dirs: nat)
    requires CoveredBy(env, RootRule(root), links, dirs) && Trails(env, root, s, numbers, rs, links, dirs)
    ensures Trail(env, root, s, numbers, rs, links, dirs)
  {
    hide Trail, CoveredBy, TrailIfTracked;
    DirsAreFew(env, RootRule(root), links, dirs);
    assert links[..|links|] == links;
  }

  /** A tracked path that a run saw existed at the id of its backup, and as a directory if it was one. */
  lemma {:induction false} SeenIsThere(env: Env, root: SearchNode, s: Repo, numbers: seq<nat>, rs: seq<Run>, links: Links, dirs: nat, id: nat)
    requires CoveredBy(env, RootRule(root), links, dirs) && Trail(env, root, s, numbers, rs, links, dirs) && id < |s.times|
    ensures |numbers| == |s.times| && numbers[id] < |rs|
    ensures var seen := Sight(rs[numbers[id]].found, links);
      && (seen.Some? ==> StandsAt(s.paths, links, id, seen.value.entry.Dir?))
      && (seen.None? ==> !StandsAt(s.paths, links, id, false))
  {
    hide Trail, CoveredBy, Resolves, Sight, Locate, SearchPathState;
    LookupIsExact(env, root, s, numbers, rs, links, dirs, id);
    var j := numbers[id];
    var answer := Lookback(s.paths, links, id);
    assert TimeTravel.Right(env, s.blobs, answer, LogOf(rs, links), j);
    assert LogOf(rs, links)[j] == EntryOf(Sight(rs[j].found, links));
  }

  /** The links above a path that a run saw existed as directories at the id of its backup. */
  lemma {:induction false} WayIsThere(env: Env, root: SearchNode, s: Repo, numbers: seq<nat>, rs: seq<Run>, links: Links, dirs: nat, id: nat, k: nat)
    requires CoveredBy(env, RootRule(root), links, dirs) && Trails(env, root, s, numbers, rs, links, dirs)
    requires id < |s.times| == |numbers| && numbers[id] < |rs| && Sight(rs[numbers[id]].found, links).Some?
    requires 0 < k < |links| && Locate(s.paths, links).Some?
    ensures StandsAt(s.paths, links[..k], id, true)
  {
    hide Sight, CoherentBelow, ExistingState, Explains, CoveredBy, Locate, Sound, RunsInOrder;
    SightAbove(rs[numbers[id]].found, links, k);
    if k > dirs {
      CoveredPrefix(env, RootRule(root), links, dirs, k);
      SeenIsThere(env, root, s, numbers, rs, links[..k], dirs, id);
    } else {
      TrailsHere(env, root, s, numbers, rs, links, dirs);
      SoundIsExpected(env, root, s);
      LocatedAbove(s.paths, links, k);
      if Locate(s.paths, links[..k]).value.policy.Track? {
        TrackedAbove(env, RootRule(root), s.paths, links, dirs, k);
        assert TrailIfTracked(env, root, s, numbers, rs, links[..k]);
        SeenIsThere(env, root, s, numbers, rs, links[..k], k - 1, id);
      } else {
        UntrackedAbove(env, RootRule(root), s.paths, links, dirs, k, id);
      }
    }
  }

  lemma {:induction false} SoundIsExpected(env: Env, root: SearchNode, s: Repo)
    requires Sound(env, root, s)
    ensures Expected(env, RootRule(root), s.paths)
  {
    hide StoreOk;
  }

  /** A path can be restored to a backup exactly if the run of that backup saw it. */
  lemma {:induction false} StandingIffSeen(env: Env, root: SearchNode, s: Repo, numbers: seq<nat>, rs: seq<Run>, links: Links, dirs: nat, id: nat)
    requires CoveredBy(env, RootRule(root), links, dirs) && Trails(env, root, s, numbers, rs, links, dirs) && id < |s.times|
    ensures |numbers| == |s.times| && numbers[id] < |rs|
    ensures Standing(s.paths, links, id) <==> Sight(rs[numbers[id]].found, links).Some?
  {
    hide Sight, ExistingState, CoveredBy, Trail, Trails;
    TrailsHere(env, root, s, numbers, rs, links, dirs);
    SeenIsThere(env, root, s, numbers, rs, links, dirs, id);
    assert links[..|links|] == links;
    var seen := Sight(rs[numbers[id]].found, links);
    if seen.Some? {
      forall k | 0 < k <= |links| ensures StandsAt(s.paths, links[..k], id, k < |links|) {
        if k < |links| { WayIsThere(env, root, s, numbers, rs, links, dirs, id, k); }
      }
      StandingByLinks(s.paths, links, id);
    }
    if Standing(s.paths, links, id) { StandingStands(s.paths, links, id); }
  }

  lemma {:induction false} StandingStands(ns: seq<Node>, links: Links, id: nat)
    requires Standing(ns, links, id)
    ensures StandsAt(ns, links, id, false)
    decreases |links|
  {
    hide ExistingState;
    if |links| > 1 { StandingStands(Lookup(ns, links[0]).value.subs, links[1..], id); }
  }

  // ----- what restoring relies on -----

  /** Nothing on the disk is in the way: no symlink where a file or a directory belongs, and no file
      that differs from the recorded one only in ways that the comparison does not notice. */
  ghost predicate ClearSelf(env: Env, blobs: Blobs, disk: Entries, path: Bytes, s: PathState) {
    && (path in disk && !s.Symlink? ==> !disk[path].Link?)
    && (path in disk && disk[path].File? && s.RegularFile? && s.info.size == |disk[path].content|
        && (s.info.mtime == disk[path].mtime || s.info.hash[..IdentityLength(s.info.size)] == Identity(env, disk[path].content))
        ==> disk[path].content == StoredContent(blobs, s.info))
  }

  ghost predicate Clear(env: Env, blobs: Blobs, disk: Entries, n: Node, id: nat, target: Bytes)
    decreases n
  {
    InScope(n.path, target) && ExistingState(n, id).Some? ==>
      var s := ExistingState(n, id).value;
      && ClearSelf(env, blobs, disk, n.path, s)
      && (s.Directory? ==> forall i :: 0 <= i < |n.subs| ==> Clear(env, blobs, disk, n.subs[i], id, target))
  }

  ghost predicate AllClear(env: Env, blobs: Blobs, disk: Entries, ns: seq<Node>, id: nat, target: Bytes) {
    forall i :: 0 <= i < |ns| ==> Clear(env, blobs, disk, ns[i], id, target)
  }

  lemma {:induction false} StockIsReadable(env: Env, blobs: Blobs, s: PathState)
    requires StoreOk(env, blobs) && InStock(blobs, s) && s.RegularFile?
    ensures |StoredContent(blobs, s.info)| == s.info.size
  {
    hide FilePath;
    assert PathOf(s.info) == FilePath(s.info.hash, s.info.size, s.info.slot);
  }

  lemma {:induction false} ExistingIsPoint(n: Node, id: nat)
    requires ExistingState(n, id).Some?
    ensures exists i :: 0 <= i < |n.history| && n.history[i].state == ExistingState(n, id).value
  {
    if n.policy.Track? { FirstIsPoint(n.history, id); }
  }

  lemma {:induction false} FirstIsPoint(h: seq<Point>, id: nat)
    requires FirstAtOrBefore(h, id).Some?
    ensures exists i :: 0 <= i < |h| && h[i].state == FirstAtOrBefore(h, id).value
  {
    if !(h[0].backup.Past? && h[0].backup.index >= id) {
      FirstIsPoint(h[1..], id);
      var i :| 0 <= i < |h[1..]| && h[1..][i].state == FirstAtOrBefore(h[1..], id).value;
      assert h[i + 1].state == FirstAtOrBefore(h, id).value;
    }
  }

  /** Between two runs, every stored file that restoring may need can be read. */
  lemma {:induction false} ClearIsFair(env: Env, blobs: Blobs, disk: Entries, n: Node, id: nat, target: Bytes)
    requires StoreOk(env, blobs) && Stocked(blobs, n, false) && Fresh(n) && Clear(env, blobs, disk, n, id, target)
    ensures Fair(env, blobs, disk, n, id, target)
    decreases n
  {
    hide StoreOk, ClearSelf, ExistingState, InScope, InStock;
    if InScope(n.path, target) && ExistingState(n, id).Some? {
      var s := ExistingState(n, id).value;
      ExistingIsPoint(n, id);
      var i :| 0 <= i < |n.history| && n.history[i].state == s;
      assert InStock(blobs, s);
      FairByParts(env, blobs, disk, n.path, s);
      if s.Directory? {
        forall k | 0 <= k < |n.subs| ensures Fair(env, blobs, disk, n.subs[k], id, target) {
          ClearIsFair(env, blobs, disk, n.subs[k], id, target);
        }
      }
    }
  }

  lemma {:induction false} FairByParts(env: Env, blobs: Blobs, disk: Entries, path: Bytes, s: PathState)
    requires StoreOk(env, blobs) && InStock(blobs, s) && ClearSelf(env, blobs, disk, path, s)
    ensures FairSelf(env, blobs, disk, path, s)
  {
    hide StoredContent;
    if s.RegularFile? { StockIsReadable(env, blobs, s); }
  }

  lemma {:induction false} SoundIsFair(env: Env, root: SearchNode, s: Repo, disk: Entries, id: nat, target: Bytes)
    requires Sound(env, root, s) && AllClear(env, s.blobs, disk, s.paths, id, target)
    ensures AllFair(env, s.blobs, disk, s.paths, id, target)
  {
    hide StoreOk, Clear, Fair, Stocked;
    forall i | 0 <= i < |s.paths| ensures Fair(env, s.blobs, disk, s.paths[i], id, target) {
      assert Untouched(s.paths[i]);
      ClearIsFair(env, s.blobs, disk, s.paths[i], id, target);
    }
  }

  /** Every link but the last is there as a directory. */
  predicate WayExists(a: Entries, links: Links) { forall k :: 0 <= k < |links| - 1 ==> IsDir(a, links[k]) }

  lemma {:induction false} WayIsAbove(links: Links, dir: Bytes, k: nat)
    requires Ladder(links, dir) && k < |links|
    ensures Below(Goal(links), links[k])
    decreases |links|
  {
    hide EndsWithSlash;
    GoalIsBelow(links, dir);
    if k > 0 { WayIsAbove(links[1..], links[0], k - 1); }
  }

  /** A directory above a restored path that has no policy keeps its owner and its mode; and its time, too, if
      nothing is created or replaced directly in it. */
  lemma {:induction false} ListingStays(a: Entries, b: Entries, ns: seq<Node>, dir: Bytes, links: Links, id: nat, k: nat)
    requires NamedList(ns, dir) && Ladder(links, dir) && Standing(ns, links, id) && WayExists(a, links)
    requires k < |links| - 1 && AllLeft(a, b, ns, dir, id, Goal(links))
    requires Locate(ns, links[..k + 1]).Some? ==> Locate(ns, links[..k + 1]).value.policy.NoPolicy?
    ensures Locate(ns, links[..k + 1]).Some? && SameButTime(a, b, links[k])
    ensures Quiet(a, Locate(ns, links[..k + 1]).value.subs, id, Goal(links)) ==> SameAt(a, b, links[k])
    decreases |links|
  {
    hide ExistingState, Below, EndsWithSlash, Beside, Quiet;
    var n := Lookup(ns, links[0]).value;
    var i := IndexOf(ns, links[0]);
    assert n == ns[i] && Restore.Left(a, b, n, id, Goal(links)) && Named(n);
    WayIsAbove(links, dir, 0);
    assert IsDir(a, links[0]);
    assert links[..k + 1][0] == links[0];
    if k > 0 {
      assert links[..k + 1][1..] == links[1..][..k] && Goal(links[1..]) == Goal(links);
      assert WayExists(a, links[1..]) by { forall j | 0 <= j < |links[1..]| - 1 ensures IsDir(a, links[1..][j]) { assert IsDir(a, links[j + 1]); } }
      ListingStays(a, b, n.subs, n.path, links[1..], id, k - 1);
    }
  }

  // ----- the whole -----

  /** Restores a path of a repository whose runs are known. This succeeds exactly if the run that made the
      backup saw the path, and leaves exactly the entry which that run saw. */
  method RestoreSeen(env: Env, ghost root: SearchNode, ghost numbers: seq<nat>, ghost rs: seq<Run>,
                     ghost links: Links, ghost dirs: nat, s: Repo, id: nat, path: Bytes, disk: Disk)
    returns (planned: bool)
    requires Orderly(env, root, s) && id < |s.times|
    requires CoveredBy(env, RootRule(root), links, dirs) && Trails(env, root, s, numbers, rs, links, dirs)
    requires Ladder(links, []) && path == Goal(links)
    requires disk.Valid() && AllClear(env, s.blobs, disk.entries, s.paths, id, path)
    modifies disk
    ensures |numbers| == |s.times| && numbers[id] < |rs| && s.times[id] == rs[numbers[id]].time
    ensures var seen := EntryOf(Sight(rs[numbers[id]].found, links));
      && (planned <==> seen.Some?)
      && (planned ==> path in disk.entries && disk.entries[path] == seen.value)
    ensures if planned then Spared(old(disk.entries), disk.entries, path) else disk.entries == old(disk.entries)
    ensures planned ==> AllLeft(old(disk.entries), disk.entries, s.paths, [], id, path)
  {
    hide CoveredBy, Trails, Sight, Standing, ExistingState;
    hide AllLeft, AllClear, AllFair, AllRestored, RestoredSelf, NamedList, Idle, Spared, Sound, Orderly;
    assert Sound(env, root, s) by { OrderlyIsSound(env, root, s); }
    OrderlyIsRestorable(env, root, s);
    SoundIsFair(env, root, s, disk.entries, id, path);
    NumberedTime(env, root, s, numbers, rs, links, dirs, id);
    StandingIffSeen(env, root, s, numbers, rs, links, dirs, id);
    GoalIsRequest(links);
    PlannedIffStanding(env, disk.entries, s.paths, [], id, links, true);
    planned := RestoreTo(env, s.blobs, disk, s.paths, id, path);
    if planned { SeenIsRestored(env, root, s, numbers, rs, links, dirs, id, disk.entries); }
  }

  lemma {:induction false} NumberedTime(env: Env, root: SearchNode, s: Repo, numbers: seq<nat>, rs: seq<Run>, links: Links, dirs: nat, id: nat)
    requires CoveredBy(env, RootRule(root), links, dirs) && Trails(env, root, s, numbers, rs, links, dirs) && id < |s.times|
    ensures |numbers| == |s.times| && numbers[id] < |rs| && s.times[id] == rs[numbers[id]].time
  {
    hide Trail, Trails, CoveredBy, TimeTravel.Right;
    TrailsHere(env, root, s, numbers, rs, links, dirs);
    LookupIsExact(env, root, s, numbers, rs, links, dirs, id);
  }

  lemma {:induction false} MadeLeavesTrails(env: Env, root: SearchNode, ws: seq<World>, rs: seq<Run>, links: Links, dirs: nat)
    requires ProperRoot(root) && Made(env, root, ws, rs) && After(env, root, rs).Some?
    requires CoveredBy(env, RootRule(root), links, dirs) && WatchedWay(env, rs, links, dirs)
    ensures Trails(env, root, After(env, root, rs).value, Numbers(env, root, rs), rs, links, dirs)
  {
    hide ProperRoot, Made, Numbers, Watched, After, CoveredBy, Usual, Trail;
    var s, numbers := After(env, root, rs).value, Numbers(env, root, rs);
    DirsAreFew(env, RootRule(root), links, dirs);
    assert links[..|links|] == links;
    assert Watched(env, rs, links, dirs);
    forall k | dirs < k <= |links| ensures Trail(env, root, s, numbers, rs, links[..k], dirs) {
      CoveredPrefix(env, RootRule(root), links, dirs, k);
      MadeIsUsual(env, root, ws, rs, links[..k], dirs);
      TrailAfter(env, root, rs, links[..k], dirs);
    }
    forall k | 0 < k <= dirs && k < |links| ensures TrailIfTracked(env, root, s, numbers, rs, links[..k]) {
      if CoveredBy(env, RootRule(root), links[..k], k - 1) {
        DirectoriesAreWatched(env, rs, links, dirs, k);
        MadeIsUsual(env, root, ws, rs, links[..k], k - 1);
        TrailAfter(env, root, rs, links[..k], k - 1);
      }
    }
  }

  ghost predicate ShownAt(env: Env, root: SearchNode, ws: seq<World>, rs: seq<Run>, links: Links, k: nat)
    requires k < |ws| == |rs|
  {
    EntryOf(Sight(rs[k].found, links)) == WorldSight(env, ws[k], RootRule(root), [], links)
  }

  /** Every run saw what the file system showed. */
  lemma {:induction false} MadeIsShown(env: Env, root: SearchNode, ws: seq<World>, rs: seq<Run>, links: Links)
    requires ProperRoot(root) && Made(env, root, ws, rs) && Ladder(links, [])
    ensures |ws| == |rs| && forall k :: 0 <= k < |rs| ==> ShownAt(env, root, ws, rs, links, k)
    decreases |rs|
  {
    hide ProperRoot, Searches, Feasible, After, WorldSight, Sight, Ladder;
    if rs != [] {
      var n := |rs| - 1;
      MadeIsShown(env, root, ws[..n], rs[..n], links);
      SeenIsShown(env, root, ws[n], rs[n], links);
      forall k | 0 <= k < |rs| ensures ShownAt(env, root, ws, rs, links, k) {
        if k < n { assert ShownAt(env, root, ws[..n], rs[..n], links, k); }
      }
    }
  }

  lemma {:induction false} ShownTo(env: Env, root: SearchNode, ws: seq<World>, rs: seq<Run>, links: Links, k: nat)
    requires ProperRoot(root) && Made(env, root, ws, rs) && Ladder(links, []) && k < |rs|
    ensures |ws| == |rs| && EntryOf(Sight(rs[k].found, links)) == WorldSight(env, ws[k], RootRule(root), [], links)
  {
    hide ProperRoot, Made, WorldSight, Sight, Ladder;
    MadeIsShown(env, root, ws, rs, links);
    assert ShownAt(env, root, ws, rs, links, k);
  }

  /** From the text of a config to a restored path. Let a config parse into a tree that spares the root
      directory, let any number of backups be made with it, and let it track a path below directories
      that every run finds. Then restoring that path to a backup the metadata still has succeeds exactly
      if the file system showed the path when it was searched for that backup, and leaves exactly the
      entry that was there, with its content and attributes; nothing but the path, what is below it and
      what is above it changes. */
  method RestoreToBackup(env: Env, ghost config: Bytes, ghost nodes: Arena, ghost ws: seq<World>, ghost rs: seq<Run>,
                         ghost links: Links, ghost dirs: nat, s: Repo, id: nat, path: Bytes, disk: Disk)
    returns (planned: bool)
    requires ReadConfig(config).Some? && Parsed(nodes, ReadConfig(config).value.explicit)
    requires SparesRoot(ReadConfig(config).value.explicit)
    requires Made(env, TreeOf(nodes, []), ws, rs) && After(env, TreeOf(nodes, []), rs) == Some(s) && id < |s.times|
    requires CoveredBy(env, RootRule(TreeOf(nodes, [])), links, dirs) && WatchedWay(env, rs, links, dirs)
    requires Ladder(links, []) && path == Goal(links)
    requires disk.Valid() && AllClear(env, s.blobs, disk.entries, s.paths, id, path)
    modifies disk
    ensures var numbers := Numbers(env, TreeOf(nodes, []), rs);
      && |numbers| == |s.times| && numbers[id] < |rs| && s.times[id] == rs[numbers[id]].time
      && |ws| == |rs|
      && var there := WorldSight(env, ws[numbers[id]], RootRule(TreeOf(nodes, [])), [], links);
      && there == EntryOf(Sight(rs[numbers[id]].found, links))
      && (planned <==> there.Some?)
      && (planned ==> path in disk.entries && disk.entries[path] == there.value)
    ensures if planned then Spared(old(disk.entries), disk.entries, path) else disk.entries == old(disk.entries)
    ensures planned ==> AllLeft(old(disk.entries), disk.entries, s.paths, [], id, path)
  {
    ghost var root := TreeOf(nodes, []);
    hide ReadConfig, Parsed, SparesRoot, Made, CoveredBy, WatchedWay, Numbers, Sight, After, ProperRoot;
    hide AllLeft, AllClear, Spared, Orderly, TreeOf, Trails, Ladder, WorldSight;
    ConfigIsProper(config, nodes);
    MadeIsOrderly(env, root, ws, rs);
    MadeLeavesTrails(env, root, ws, rs, links, dirs);
    ghost var numbers := Numbers(env, root, rs);
    planned := RestoreSeen(env, root, numbers, rs, links, dirs, s, id, path, disk);
    ShownTo(env, root, ws, rs, links, numbers[id]);
  }

  lemma {:induction false} ConfigIsProper(config: Bytes, nodes: Arena)
    requires ReadConfig(config).Some? && Parsed(nodes, ReadConfig(config).value.explicit)
    requires SparesRoot(ReadConfig(config).value.explicit)
    ensures ProperRoot(TreeOf(nodes, []))
  {
    hide ReadConfig, SparesRoot, SearchTree.Right, ExactNodes, IsDirect;
    ParsedTreeIsProper(config, nodes);
    ParsedIsProper(config);
    RootIsSpared(nodes, ReadConfig(config).value);
  }

  lemma {:induction false} OrderlyIsSound(env: Env, root: SearchNode, s: Repo)
    requires Orderly(env, root, s)
    ensures Sound(env, root, s)
  {
    hide Sound;
  }

  lemma {:induction false} GoalIsRequest(links: Links)
    requires Ladder(links, [])
    ensures ProperRequest(Goal(links)) && Goal(links) != []
  {
    GoalIsBelow(links, []);
  }

  lemma {:induction false} SeenIsRestored(env: Env, root: SearchNode, s: Repo, numbers: seq<nat>, rs: seq<Run>, links: Links, dirs: nat, id: nat, disk: Entries)
    requires CoveredBy(env, RootRule(root), links, dirs) && Trails(env, root, s, numbers, rs, links, dirs)
    requires id < |s.times| == |numbers| && numbers[id] < |rs|
    requires NamedList(s.paths, []) && Ladder(links, []) && Standing(s.paths, links, id)
    requires AllRestored(s.blobs, disk, s.paths, id, Goal(links))
    ensures Goal(links) in disk && EntryOf(Sight(rs[numbers[id]].found, links)) == Some(disk[Goal(links)])
  {
    hide Trail, Trails, CoveredBy, RestoredSelf, Sight, ExistingState, AllRestored, NamedList, Standing, Ladder;
    TrailsHere(env, root, s, numbers, rs, links, dirs);
    StandingIsRestored(s.blobs, disk, s.paths, [], links, id);
    LocatedPath(s.paths, links);
    RestoreYieldsWhatWasSeen(env, root, s, numbers, rs, links, dirs, id, disk);
  }
}
