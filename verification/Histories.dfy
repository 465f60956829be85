/** The life of a repository: processes that load it, search, store and collect, each of which completes
    or is cut short by a crash of the system. The disk is all that one process hands to the next. */
module Histories {
  import opened Data
  import opened Metadata
  import opened Backup
  import opened RepoPath
  import opened BlobStore
  import opened Codec
  import opened Renumber
  import opened GarbageCollector
  import opened FixedConfig
  import opened Stock
  import opened Runs
  import opened Chains
  import opened TimeTravel
  import opened Naming
  import opened Search
  import opened FileSystem
  import Restore
  import opened Sightings
  import opened Session
  import C = CrashSafety
  import opened Durable
  import opened Atomicity

  // ----- what a process finds -----

  /** The repository that a process loads from the disk: none yet if there is no metadata, and no process
      goes on with metadata that cannot be loaded. */
  function Reload(m: C.Media): Option<Repo> {
    if C.META !in m.live then Some(Blank.(blobs := Shelf(m.live)))
    else if !m.live[C.META].Plain? then None
    else
      var i :- Load(m.live[C.META].content);
      Some(Reread(i, Shelf(m.live)))
  }

  /** The same repository, with every stored file that it refers to, and perhaps others. */
  ghost predicate Same(s: Repo, t: Repo) {
    && t == s.(blobs := t.blobs)
    && forall p :: p in ReferencedPaths(s.paths) && p in s.blobs ==> p in t.blobs && t.blobs[p] == s.blobs[p]
  }

  lemma {:induction false} SlotsAreSmall(env: Env, s: Repo, m: C.Media)
    requires Resting(env, s, m)
    ensures forall q :: q in m.live && SlotShape(q) ==> m.live[q].Plain? && Suits(env, PathText(q), m.live[q].content)
  {
    hide Suits, PathText, Tidy, Mirrors, C.Settled;
    forall q | q in m.live && SlotShape(q) ensures m.live[q].Plain? && Suits(env, PathText(q), m.live[q].content) {
      FolderIsNotMeta(q);
      TameMeans(env, C.Current(m), NoMeta(m), m, q, C.At(m.live, q));
    }
  }

  lemma {:induction false} ShelfIsStore(env: Env, s: Repo, m: C.Media, p: Bytes)
    requires Resting(env, s, m) && Shelved(p)
    ensures p in Shelf(m.live) <==> p in s.blobs
    ensures p in s.blobs ==> Shelf(m.live)[p] == s.blobs[p] && Suits(env, p, s.blobs[p])
  {
    hide PathText, Tidy, C.Settled, Tame, SlotShape, Shelved, Elements, Shelf, FilePath;
    SlotsAreSmall(env, s, m);
    ShelfMeans(m.live, p);
    ElementsShape(p);
  }

  /** What is on the disk is what the next process finds. */
  lemma {:induction false} RestingReloads(env: Env, root: SearchNode, s: Repo, m: C.Media)
    requires Resting(env, s, m) && Sound(env, root, s)
    ensures Reload(m) == Some(s.(blobs := Shelf(m.live)))
    ensures Same(s, Reload(m).value) && Sound(env, root, Reload(m).value) && Resting(env, Reload(m).value, m)
  {
    hide Tidy, C.Settled, Tame, Shelf, Load, Shelved, Elements, FilePath, Suits, ReferencedPaths, Stocked;
    var shelf := Shelf(m.live);
    forall p | Shelved(p)
      ensures p in shelf <==> p in s.blobs
      ensures p in s.blobs ==> shelf[p] == s.blobs[p] && Suits(env, p, s.blobs[p])
    {
      ShelfIsStore(env, s, m, p);
    }
    assert StoreOk(env, shelf) by { SuitsIsOk(env, s.blobs, shelf); }
    StockedIsReferenced(s.blobs, s.paths);
    ReferencedAreShelved(s.paths);
    forall p | p in ReferencedPaths(s.paths) ensures p in shelf && p in s.blobs && shelf[p] == s.blobs[p] {
      assert p in s.blobs.Keys;
    }
    SoundWith(env, root, s, shelf);
  }

  lemma {:induction false} SuitsIsOk(env: Env, blobs: Blobs, shelf: Blobs)
    requires forall p :: Shelved(p) ==> (p in shelf <==> p in blobs) && (p in blobs ==> shelf[p] == blobs[p] && Suits(env, p, blobs[p]))
    ensures StoreOk(env, shelf)
  {
    hide FilePath, Shelved;
    forall h: Hash, n: U64, t: Byte | FilePath(h, n, t) in shelf
      ensures |shelf[FilePath(h, n, t)]| == n && env.digest(shelf[FilePath(h, n, t)]) == h
    {
      FilePathIsShelved(h, n, t);
      assert Suits(env, FilePath(h, n, t), shelf[FilePath(h, n, t)]);
    }
  }

  // ----- processes -----

  /** A process that makes a backup: the file system it searches and what it sees of it, the files it
      stores, the metadata it writes, and what it deletes. */
  datatype Attempt = Attempt(world: World, run: Run, blobs: Blobs, ns: seq<Node>, writes: seq<C.Blob>, meta: Bytes, dels: seq<C.Path>)

  /** A process takes all its steps, or some until the system crashes; then what survived is read. */
  datatype Ending = Complete | Crash(steps: nat, left: map<C.Path, C.Item>, disk: C.Media)

  datatype Event = Event(attempt: Attempt, ending: Ending)

  /** The disk, the runs whose metadata was committed with the file systems they searched, and which of them
      made each backup, by id. */
  datatype State = State(disk: C.Media, runs: seq<Run>, worlds: seq<World>, numbers: seq<nat>)

  ghost predicate Starts(env: Env, root: SearchNode, m: C.Media, a: Attempt) {
    && Reload(m).Some?
    && Searches(env, root, a.world, a.run) && Feasible(env, root, Reload(m).value, a.run)
    && RunParts(env, root, Reload(m).value, a.run, a.blobs, a.ns, a.writes, a.meta)
    && (forall i :: 0 <= i < |a.writes| ==> C.Slot(a.writes[i].path))
    && PostOrder(Committed(m, a.writes, a.meta), a.dels, Preserved(a.ns))
  }

  ghost predicate Ends(m: C.Media, a: Attempt, e: Ending)
    requires forall i :: 0 <= i < |a.writes| ==> C.Slot(a.writes[i].path)
  {
    var program := C.Program(m, a.writes, a.meta, a.dels);
    match e
    case Complete => Thorough(a.blobs, a.dels, Preserved(a.ns))
    case Crash(k, left, disk) => k <= |program| && C.Survives(C.Run(m, program[..k]), left) && C.Rebooted(left, disk)
  }

  ghost predicate Happens(env: Env, root: SearchNode, m: C.Media, ev: Event) {
    Starts(env, root, m, ev.attempt) && Ends(m, ev.attempt, ev.ending)
  }

  ghost function DiskAfter(m: C.Media, a: Attempt, e: Ending): C.Media
    requires forall i :: 0 <= i < |a.writes| ==> C.Slot(a.writes[i].path)
  {
    match e
    case Complete => C.Run(m, C.Program(m, a.writes, a.meta, a.dels))
    case Crash(_, _, disk) => disk
  }

  function Renumbered(env: Env, root: SearchNode, s: Repo, run: Run, now: nat, numbers: seq<nat>): seq<nat> {
    if |numbers| != |s.refs| then [] else Renamed(LedgerAfter(env, root, s, run), now, numbers)
  }

  /** A run is committed if its metadata is what the disk ends up with. */
  ghost function StateAfter(env: Env, root: SearchNode, st: State, ev: Event): State
    requires Happens(env, root, st.disk, ev)
  {
    var a, disk := ev.attempt, DiskAfter(st.disk, ev.attempt, ev.ending);
    if HoldsMeta(disk, a.meta)
    then State(disk, st.runs + [a.run], st.worlds + [a.world], Renumbered(env, root, Reload(st.disk).value, a.run, |st.runs|, st.numbers))
    else State(disk, st.runs, st.worlds, st.numbers)
  }

  const Start: State := State(C.Media(map[], map[]), [], [], [])

  /** The events lead from an empty disk to the state. */
  ghost predicate Leads(env: Env, root: SearchNode, es: seq<Event>, sts: seq<State>)
    decreases |es|
  {
    |sts| == |es| + 1 &&
    if es == [] then sts[0] == Start
    else
      var k := |es| - 1;
      && Leads(env, root, es[..k], sts[..k + 1])
      && Happens(env, root, sts[k].disk, es[k])
      && sts[k + 1] == StateAfter(env, root, sts[k], es[k])
  }

  function Last(sts: seq<State>): State
    requires sts != []
  {
    sts[|sts| - 1]
  }

  // ----- one event -----

  /** A state in order: the repository on the disk is one that whole runs could have left. */
  ghost predicate InOrderNow(env: Env, root: SearchNode, st: State) {
    && Reload(st.disk).Some? && Orderly(env, root, Reload(st.disk).value) && Resting(env, Reload(st.disk).value, st.disk)
  }

  /** The repository after an event: that of the run, or the one from before. */
  ghost predicate Outcome(env: Env, root: SearchNode, s: Repo, run: Run, committed: bool, t: Repo) {
    if committed then Next(env, root, s, run).Some? && Same(Next(env, root, s, run).value, t) else Same(s, t)
  }

  lemma {:induction false} OrderlyWith(env: Env, root: SearchNode, s: Repo, t: Repo)
    requires Orderly(env, root, s) && Same(s, t) && Sound(env, root, t)
    ensures Orderly(env, root, t)
  {
    hide Sound, PlacedList;
  }

  lemma {:induction false} CompleteKeeps(env: Env, root: SearchNode, m: C.Media, a: Attempt)
    requires Reload(m).Some? && Orderly(env, root, Reload(m).value) && Resting(env, Reload(m).value, m)
    requires ProperRoot(root) && Starts(env, root, m, a) && Ends(m, a, Complete)
    ensures var s, d := Reload(m).value, DiskAfter(m, a, Complete);
      && HoldsMeta(d, a.meta) && Reload(d).Some? && Outcome(env, root, s, a.run, true, Reload(d).value)
      && Sound(env, root, Reload(d).value) && Resting(env, Reload(d).value, d)
  {
    hide Searches, Feasible, Sound, RunParts, Next, PostOrder, Thorough, Resting, Reload, ProperRoot, Completes, ProperRun, C.Program, C.Run, Committed;
    var s := Reload(m).value;
    RunIsReady(env, root, s, a);
    RunEndsResting(env, root, s, a.run, m, a.blobs, a.ns, a.writes, a.meta, a.dels);
    RunKeepsSound(env, root, s, a.run);
    PartsFit(env, root, s, a.run, a.blobs, a.ns, a.writes, a.meta);
    RestingReloads(env, root, Next(env, root, s, a.run).value, DiskAfter(m, a, Complete));
    assert OnDisk(s, m) by { RestingIsOnDisk(env, s, m); }
    MetaStays(m, s, a.blobs, a.writes, a.meta, a.dels, Preserved(a.ns), a.ns);
  }

  lemma {:induction false} RunIsReady(env: Env, root: SearchNode, s: Repo, a: Attempt)
    requires Orderly(env, root, s) && ProperRoot(root)
    requires Searches(env, root, a.world, a.run) && Feasible(env, root, s, a.run)
    ensures WritableRun(env, root, a.run) && ProperRun(env, root, a.run) && Completes(env, root, s, a.run) && Sound(env, root, s)
  {
    hide Searches, Feasible, Sound, ProperRoot, Completes, ProperRun, AllWritable, PlacedList;
    SearchIsRun(env, root, a.world, a.run);
    FeasibleCompletes(env, root, s, a.run);
  }

  lemma {:induction false} CrashKeeps(env: Env, root: SearchNode, m: C.Media, a: Attempt, e: Ending)
    requires Reload(m).Some? && Orderly(env, root, Reload(m).value) && Resting(env, Reload(m).value, m)
    requires ProperRoot(root) && Starts(env, root, m, a) && e.Crash? && Ends(m, a, e)
    ensures var s := Reload(m).value;
      && Reload(e.disk).Some? && Outcome(env, root, s, a.run, HoldsMeta(e.disk, a.meta), Reload(e.disk).value)
      && Sound(env, root, Reload(e.disk).value) && Resting(env, Reload(e.disk).value, e.disk)
  {
    hide Searches, Feasible, Sound, RunParts, Next, PostOrder, Resting, Reload, ProperRoot, Completes, ProperRun, C.Program, C.Run, Committed, C.Survives, C.Rebooted;
    hide HoldsMeta, ReferencedPaths, Difference;
    var s := Reload(m).value;
    RunIsReady(env, root, s, a);
    var t := CrashIsAtomic(env, root, s, a.run, m, a.blobs, a.ns, a.writes, a.meta, a.dels, e.steps, e.left, e.disk);
    PartsFit(env, root, s, a.run, a.blobs, a.ns, a.writes, a.meta);
    DifferenceExtends(s.blobs, a.blobs, a.writes);
    RestingReloads(env, root, t, e.disk);
    assert Reload(e.disk) == Some(t);
  }

  /** Every event leaves the repository that its run makes, or the one from before, in order and with every
      stored file it refers to. A complete process commits its run. */
  lemma {:induction false} EventKeeps(env: Env, root: SearchNode, st: State, ev: Event)
    requires ProperRoot(root) && InOrderNow(env, root, st) && Happens(env, root, st.disk, ev)
    ensures var a, st1 := ev.attempt, StateAfter(env, root, st, ev);
      && InOrderNow(env, root, st1) && (ev.ending.Complete? ==> HoldsMeta(st1.disk, a.meta))
      && Outcome(env, root, Reload(st.disk).value, a.run, HoldsMeta(st1.disk, a.meta), Reload(st1.disk).value)
  {
    hide Sound, PlacedList, Resting, Reload, ProperRoot, Next, Ends, Starts, HoldsMeta, Renumbered, Feasible;
    var a, s := ev.attempt, Reload(st.disk).value;
    var d := StateAfter(env, root, st, ev).disk;
    if ev.ending.Complete? {
      CompleteKeeps(env, root, st.disk, a);
    } else {
      CrashKeeps(env, root, st.disk, a, ev.ending);
    }
    assert Searches(env, root, a.world, a.run) && Feasible(env, root, s, a.run) by { StartsMeans(env, root, st.disk, a); }
    RunIsReady(env, root, s, a);
    RunKeepsOrder(env, root, s, a.run);
    OrderlyWith(env, root, if HoldsMeta(d, a.meta) then Next(env, root, s, a.run).value else s, Reload(d).value);
  }

  lemma {:induction false} StartsMeans(env: Env, root: SearchNode, m: C.Media, a: Attempt)
    requires Starts(env, root, m, a)
    ensures Reload(m).Some? && Searches(env, root, a.world, a.run) && Feasible(env, root, Reload(m).value, a.run)
  {
    hide Reload, Searches, Feasible, RunParts, PostOrder;
  }

  // ----- any number of events -----

  /** After any number of complete and interrupted processes the disk holds a repository in order. */
  lemma {:induction false} HistoryKeeps(env: Env, root: SearchNode, es: seq<Event>, sts: seq<State>)
    requires ProperRoot(root) && Leads(env, root, es, sts)
    ensures InOrderNow(env, root, Last(sts))
    decreases |es|
  {
    hide ProperRoot, InOrderNow, Happens, StateAfter;
    if es == [] {
      StartIsInOrder(env, root);
    } else {
      var k := |es| - 1;
      HistoryKeeps(env, root, es[..k], sts[..k + 1]);
      EventKeeps(env, root, sts[k], es[k]);
    }
  }

  lemma {:induction false} StartIsInOrder(env: Env, root: SearchNode)
    ensures InOrderNow(env, root, Start) && Reload(Start.disk) == Some(Blank)
  {
    hide Sound, Resting;
    BlankIsSound(env, root);
    NothingIsResting(env);
    assert Shelf(map[]) == map[];
  }

  /** Time travel survives one event. */
  lemma {:induction false} EventTrails(env: Env, root: SearchNode, st: State, ev: Event, links: Links, dirs: nat)
    requires ProperRoot(root) && InOrderNow(env, root, st) && Happens(env, root, st.disk, ev)
    requires CoveredBy(env, RootRule(root), links, dirs) && Trail(env, root, Reload(st.disk).value, st.numbers, st.runs, links, dirs)
    requires Watched(env, StateAfter(env, root, st, ev).runs, links, dirs)
    ensures var st1 := StateAfter(env, root, st, ev);
      Reload(st1.disk).Some? && Trail(env, root, Reload(st1.disk).value, st1.numbers, st1.runs, links, dirs)
  {
    hide Sound, Resting, Reload, ProperRoot, Next, Ends, Starts, HoldsMeta, Feasible, Trail, CoveredBy, Completes, ProperRun, SeesDirectories, Visible, Sight, ReferencedPaths, Searches;
    var a, s := ev.attempt, Reload(st.disk).value;
    var st1 := StateAfter(env, root, st, ev);
    EventKeeps(env, root, st, ev);
    var t := Reload(st1.disk).value;
    OrderlyIsSound(env, root, t);
    if HoldsMeta(st1.disk, a.meta) {
      assert Searches(env, root, a.world, a.run) && Feasible(env, root, s, a.run) by { StartsMeans(env, root, st.disk, a); }
      RunIsReady(env, root, s, a);
      var k := |st.runs|;
      assert WatchedAt(env, st1.runs, links, dirs, k) && st1.runs[..k] == st.runs;
      TrailStep(env, root, s, st.numbers, st.runs, a.run, links, dirs);
      TrailWith(env, root, Next(env, root, s, a.run).value, t.blobs, st1.numbers, st1.runs, links, dirs);
    } else {
      TrailWith(env, root, s, t.blobs, st.numbers, st.runs, links, dirs);
    }
  }

  lemma {:induction false} RunsGrow(env: Env, root: SearchNode, st: State, ev: Event)
    requires Happens(env, root, st.disk, ev)
    ensures var runs := StateAfter(env, root, st, ev).runs; |st.runs| <= |runs| && runs[..|st.runs|] == st.runs
  {
    hide Happens, Renumbered, HoldsMeta;
    assert (st.runs + [ev.attempt.run])[..|st.runs|] == st.runs;
  }

  /** Time travel survives crashes. After any number of complete and interrupted processes, what the
      disk holds answers for every committed run. */
  lemma {:induction false} HistoryTrails(env: Env, root: SearchNode, es: seq<Event>, sts: seq<State>, links: Links, dirs: nat)
    requires ProperRoot(root) && Leads(env, root, es, sts)
    requires CoveredBy(env, RootRule(root), links, dirs) && Watched(env, Last(sts).runs, links, dirs)
    ensures Reload(Last(sts).disk).Some?
    ensures Trail(env, root, Reload(Last(sts).disk).value, Last(sts).numbers, Last(sts).runs, links, dirs)
    decreases |es|
  {
    hide ProperRoot, InOrderNow, Happens, StateAfter, Reload, Trail, CoveredBy, Watched;
    if es == [] {
      StartIsInOrder(env, root);
      BlankTrail(env, root, links, dirs);
    } else {
      var k := |es| - 1;
      RunsGrow(env, root, sts[k], es[k]);
      WatchedBefore(env, Last(sts).runs, links, dirs, |sts[k].runs|);
      HistoryKeeps(env, root, es[..k], sts[..k + 1]);
      HistoryTrails(env, root, es[..k], sts[..k + 1], links, dirs);
      EventTrails(env, root, sts[k], es[k], links, dirs);
    }
  }

  // ----- what is committed -----

  /** A complete process commits its run; one that is cut short commits its run or nothing. */
  lemma {:induction false} CompleteRunsCommit(env: Env, root: SearchNode, es: seq<Event>, sts: seq<State>, k: nat)
    requires ProperRoot(root) && Leads(env, root, es, sts) && k < |es|
    ensures var run := es[k].attempt.run;
      && (sts[k + 1].runs == sts[k].runs + [run] || (sts[k + 1].runs == sts[k].runs && sts[k + 1].numbers == sts[k].numbers))
      && (es[k].ending.Complete? ==> sts[k + 1].runs == sts[k].runs + [run])
    decreases |es|
  {
    hide ProperRoot, InOrderNow, Happens, Reload, Renumbered, HoldsMeta, Outcome;
    var n := |es| - 1;
    if k < n {
      CompleteRunsCommit(env, root, es[..n], sts[..n + 1], k);
    } else {
      HistoryKeeps(env, root, es[..n], sts[..n + 1]);
      EventKeeps(env, root, sts[n], es[n]);
    }
  }

  /** Every committed run saw what the file system showed. */
  lemma {:induction false} CommittedIsShown(env: Env, root: SearchNode, es: seq<Event>, sts: seq<State>, links: Links)
    requires ProperRoot(root) && Leads(env, root, es, sts) && Ladder(links, [])
    ensures |Last(sts).worlds| == |Last(sts).runs|
    ensures forall k :: 0 <= k < |Last(sts).runs| ==> ShownAt(env, root, Last(sts).worlds, Last(sts).runs, links, k)
    decreases |es|
  {
    hide ProperRoot, Reload, Searches, Feasible, RunParts, PostOrder, WorldSight, Sight, Ladder, Renumbered, HoldsMeta, Ends, DiskAfter;
    if es != [] {
      var n := |es| - 1;
      CommittedIsShown(env, root, es[..n], sts[..n + 1], links);
      var a, st, st1 := es[n].attempt, sts[n], sts[n + 1];
      SeenIsShown(env, root, a.world, a.run, links);
      forall k | 0 <= k < |st1.runs| ensures ShownAt(env, root, st1.worlds, st1.runs, links, k) {
        if k < |st.runs| { assert ShownAt(env, root, st.worlds, st.runs, links, k); }
      }
    }
  }

  lemma {:induction false} ArrivesShown(env: Env, root: SearchNode, es: seq<Event>, sts: seq<State>, st: State, s: Repo, links: Links, k: nat)
    requires ProperRoot(root) && Arrives(env, root, es, sts, st, s) && Ladder(links, []) && k < |st.runs|
    ensures |st.worlds| == |st.runs|
    ensures EntryOf(Sight(st.runs[k].found, links)) == WorldSight(env, st.worlds[k], RootRule(root), [], links)
  {
    hide ProperRoot, Reload, WorldSight, Sight, Ladder;
    CommittedIsShown(env, root, es, sts, links);
    assert ShownAt(env, root, st.worlds, st.runs, links, k);
  }

  // ----- restoring after crashes -----

  /** After the events the disk holds this repository. */
  ghost predicate Arrives(env: Env, root: SearchNode, es: seq<Event>, sts: seq<State>, st: State, s: Repo) {
    Leads(env, root, es, sts) && st == Last(sts) && Reload(st.disk) == Some(s)
  }

  lemma {:induction false} ArrivesTrailing(env: Env, root: SearchNode, es: seq<Event>, sts: seq<State>, st: State, s: Repo, links: Links, dirs: nat)
    requires ProperRoot(root) && Arrives(env, root, es, sts, st, s)
    requires CoveredBy(env, RootRule(root), links, dirs) && Watched(env, st.runs, links, dirs)
    ensures Trail(env, root, s, st.numbers, st.runs, links, dirs)
  {
    hide ProperRoot, Reload, Watched, CoveredBy, Trail;
    HistoryTrails(env, root, es, sts, links, dirs);
  }

  lemma {:induction false} ArrivesTracked(env: Env, root: SearchNode, es: seq<Event>, sts: seq<State>, st: State, s: Repo, links: Links)
    requires ProperRoot(root) && Arrives(env, root, es, sts, st, s) && Watched(env, st.runs, links, |links| - 1)
    ensures TrailIfTracked(env, root, s, st.numbers, st.runs, links)
  {
    hide ProperRoot, Arrives, Watched, CoveredBy, Trail;
    if CoveredBy(env, RootRule(root), links, |links| - 1) { ArrivesTrailing(env, root, es, sts, st, s, links, |links| - 1); }
  }

  lemma {:induction false} HistoryLeavesTrails(env: Env, root: SearchNode, es: seq<Event>, sts: seq<State>, st: State, s: Repo, links: Links, dirs: nat)
    requires ProperRoot(root) && Arrives(env, root, es, sts, st, s)
    requires CoveredBy(env, RootRule(root), links, dirs) && WatchedWay(env, st.runs, links, dirs)
    ensures Trails(env, root, s, st.numbers, st.runs, links, dirs)
  {
    hide ProperRoot, Arrives, Watched, CoveredBy, Trail, TrailIfTracked;
    DirsAreFew(env, RootRule(root), links, dirs);
    assert Watched(env, st.runs, links, dirs) by { assert links[..|links|] == links; }
    forall k | dirs < k <= |links| ensures Trail(env, root, s, st.numbers, st.runs, links[..k], dirs) {
      CoveredPrefix(env, RootRule(root), links, dirs, k);
      ArrivesTrailing(env, root, es, sts, st, s, links[..k], dirs);
    }
    forall k | 0 < k <= dirs && k < |links| ensures TrailIfTracked(env, root, s, st.numbers, st.runs, links[..k]) {
      DirectoriesAreWatched(env, st.runs, links, dirs, k);
      ArrivesTracked(env, root, es, sts, st, s, links[..k]);
    }
  }

  /** Restoring after any number of complete and interrupted processes. A path that the config tracks, below
      directories that every committed run found, is restored to a backup exactly if the file system
      showed the path when it was searched for that backup, and then to exactly the entry that was there. */
  method RestoreAfterCrashes(env: Env, ghost root: SearchNode, ghost es: seq<Event>, ghost sts: seq<State>, ghost st: State,
                             ghost links: Links, ghost dirs: nat, s: Repo, id: nat, path: Bytes, disk: Disk)
    returns (planned: bool)
    requires ProperRoot(root) && Arrives(env, root, es, sts, st, s) && id < |s.times|
    requires CoveredBy(env, RootRule(root), links, dirs) && WatchedWay(env, st.runs, links, dirs)
    requires Ladder(links, []) && path == Goal(links)
    requires disk.Valid() && AllClear(env, s.blobs, disk.entries, s.paths, id, path)
    modifies disk
    ensures |st.numbers| == |s.times| && st.numbers[id] < |st.runs| && s.times[id] == st.runs[st.numbers[id]].time
    ensures |st.worlds| == |st.runs| && var there := WorldSight(env, st.worlds[st.numbers[id]], RootRule(root), [], links);
      && there == EntryOf(Sight(st.runs[st.numbers[id]].found, links))
      && (planned <==> there.Some?)
      && (planned ==> path in disk.entries && disk.entries[path] == there.value)
    ensures if planned then Restore.Spared(old(disk.entries), disk.entries, path) else disk.entries == old(disk.entries)
    ensures planned ==> Restore.AllLeft(old(disk.entries), disk.entries, s.paths, [], id, path)
  {
    hide CoveredBy, WatchedWay, Sight, ProperRoot, Leads, Reload, AllClear, Restore.Spared, Restore.AllLeft, Orderly, Trails, Ladder, Resting, WorldSight;
    HistoryKeeps(env, root, es, sts);
    HistoryLeavesTrails(env, root, es, sts, st, s, links, dirs);
    planned := RestoreSeen(env, root, st.numbers, st.runs, links, dirs, s, id, path, disk);
    ArrivesShown(env, root, es, sts, st, s, links, st.numbers[id]);
  }
}
