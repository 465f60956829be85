/** Time travel: after any number of runs, looking a tracked path up by the id of a backup that is
    still referenced finds what that run saw. */
module TimeTravel {
  import opened Data
  import opened Str
  import opened Metadata
  import opened Backup
  import opened BackupFrame
  import opened RefCountsExact
  import opened History
  import opened FixedConfig
  import opened RepoPath
  import opened BlobStore
  import opened Finishing
  import opened Codec
  import opened Renumber
  import opened GarbageCollector
  import opened Stock
  import opened Runs
  import opened Chains

  // ----- what a state says about an entry -----

  /** The recorded state is the entry that was seen, and its content can be restored. */
  ghost predicate Describes(env: Env, blobs: Blobs, s: PathState, e: Option<Entry>) {
    match e
    case None => s.NonExisting?
    case Some(File(u, g, m, t, c)) =>
      s.RegularFile? && s.uid == u && s.gid == g && s.info.mode == m && s.info.mtime == t && Resolves(env, blobs, s.info, c)
    case Some(Link(u, g, t)) => s == Symlink(u, g, t)
    case Some(Dir(u, g, m, t)) => s == Directory(u, g, m, t)
    case Some(Other) => false
  }

  function EntryOf(seen: Option<Found>): Option<Entry> {
    if seen.None? then None else Some(seen.value.entry)
  }

  /** A content change that the comparison can notice: not one of equal size that also keeps the
      modification time, and no collision of the file hash. */
  predicate Visible(env: Env, a: Option<Entry>, b: Option<Entry>) {
    a.Some? && b.Some? && a.value.File? && b.value.File? && |a.value.content| == |b.value.content|
    && (a.value.mtime == b.value.mtime || Identity(env, a.value.content) == Identity(env, b.value.content))
    ==> a.value.content == b.value.content
  }

  lemma {:induction false} DescribesElsewhere(env: Env, a: Blobs, b: Blobs, s: PathState, e: Option<Entry>)
    requires Describes(env, a, s, e)
    requires Stored(s) && PathOf(s.info) in a ==> PathOf(s.info) in b && b[PathOf(s.info)] == a[PathOf(s.info)]
    ensures Describes(env, b, s, e)
  {
    hide PathOf, Identity;
  }

  lemma {:induction false} DescribesNorm(env: Env, blobs: Blobs, s: PathState, e: Option<Entry>)
    requires Describes(env, blobs, s, e)
    ensures Describes(env, blobs, NormState(s), e)
  {
    hide PathOf, Identity;
    if s.RegularFile? && s.info.size <= FILE_HASH_SIZE {
      assert NormInfo(s.info).hash[..s.info.size] == s.info.hash[..s.info.size];
    }
  }

  // ----- the newest state of a path after a run -----

  /** What a run knows about a path before it starts. */
  ghost predicate Known(env: Env, blobs: Blobs, h: seq<Point>, last: Option<Entry>) {
    h != [] ==> Describes(env, blobs, h[0].state, last)
  }

  /** A node of the path as the pass leaves it. */
  ghost predicate Stepped(env: Env, h: seq<Point>, seen: Option<Found>, n: Node) {
    var (k, core) := Step(env, h, seen);
    n.history == k && n.hint.core == core && n.history != []
  }

  lemma {:induction false} SameContent(env: Env, blobs: Blobs, i: FileInfo, j: FileInfo, c: Content, d: Content)
    requires Resolves(env, blobs, i, c) && c == d
    requires j.hash == i.hash && j.size == i.size && j.slot == i.slot
    ensures Resolves(env, blobs, j, d)
  {
    hide Identity;
    SamePath(i, j);
  }

  /** A state that was compared without noticing new content still leads to the right content. */
  lemma {:induction false} ComparedDescribes(env: Env, blobs: Blobs, s: PathState, last: Option<Entry>, f: Found)
    requires Describes(env, blobs, s, last) && !s.NonExisting? && !f.entry.Other? && !f.policy.NoPolicy?
    requires Visible(env, last, Some(f.entry))
    ensures var (h, t) := HandleNodeChanges(env, NoHint, s, f);
      && (!(t.RegularFile? && t.info.size > 0 && StoresContent(h)) ==> Describes(env, blobs, t, Some(f.entry)))
      && (t.RegularFile? ==> f.entry.File?)
      && (f.entry.File? ==> t.RegularFile? && t.uid == f.entry.uid && t.gid == f.entry.gid
                            && t.info.mode == f.entry.mode && t.info.mtime == f.entry.mtime && t.info.size == |f.entry.content|)
  {
    hide Resolves;
    if s.RegularFile? && f.entry.File? {
      FileComparedDescribes(env, blobs, s, last, f);
    } else if f.entry.File? {
      EmptyResolves(env, blobs, StateOf(f.entry).info, f.entry.content);
    }
  }

  lemma {:induction false} EmptyResolves(env: Env, blobs: Blobs, i: FileInfo, c: Content)
    requires i.size == |c|
    ensures i.size == 0 ==> Resolves(env, blobs, i, c)
  {
    if |c| == 0 { assert c == []; }
  }

  lemma {:induction false} FileComparedDescribes(env: Env, blobs: Blobs, s: PathState, last: Option<Entry>, f: Found)
    requires Describes(env, blobs, s, last) && s.RegularFile? && f.entry.File? && !f.policy.NoPolicy?
    requires Visible(env, last, Some(f.entry))
    ensures var (h, t) := HandleNodeChanges(env, NoHint, s, f);
      && t.RegularFile? && t.uid == f.entry.uid && t.gid == f.entry.gid
      && t.info.mode == f.entry.mode && t.info.mtime == f.entry.mtime && t.info.size == |f.entry.content|
      && (Resolves(env, blobs, t.info, f.entry.content) || (Has(h, ContentChanged) && t.info.size > 0))
  {
    hide Resolves, Identity, Visible;
    var h1 := FlagIf(NoHint, s.uid != f.entry.uid || s.gid != f.entry.gid, OwnerChanged);
    var (h, i) := ApplyFileChanges(env, h1, s.info, f.entry);
    EmptyResolves(env, blobs, i, f.entry.content);
    if !Has(h, ContentChanged) {
      assert last.value.File?;
      UnnoticedContent(env, blobs, h1, s.info, last.value, f.entry);
      SameContent(env, blobs, s.info, i, last.value.content, f.entry.content);
    }
  }

  /** If the comparison raises no flag for the content, the content is the old one. */
  lemma {:induction false} UnnoticedContent(env: Env, blobs: Blobs, h: Hint, i: FileInfo, earlier: Entry, e: Entry)
    requires earlier.File? && e.File? && Resolves(env, blobs, i, earlier.content) && i.mtime == earlier.mtime
    requires h.core.Flags? && !h.core.content && !h.core.timestamp && Visible(env, Some(earlier), Some(e))
    requires !Has(ApplyFileChanges(env, h, i, e).0, ContentChanged)
    ensures earlier.content == e.content
    ensures var j := ApplyFileChanges(env, h, i, e).1; j.hash == i.hash && j.size == i.size && j.slot == i.slot
  {
    hide PathOf, Identity;
    if i.size == 0 { assert earlier.content == [] && e.content == []; }
  }

  /** After finishing, the newest state describes what the run saw. The older points are those from
      before the run. */
  lemma {:induction false} NewestDescribes(env: Env, files: map<Bytes, Entry>, a: Blobs, b: Blobs, h: seq<Point>, last: Option<Entry>, seen: Option<Found>, n: Node, r: Node)
    requires Known(env, a, h, last) && Stepped(env, h, seen, n) && Visible(env, last, EntryOf(seen))
    requires seen.Some? ==> !seen.value.entry.Other? && seen.value.policy.Track? && seen.value.path == n.path && Steady(seen.value, files)
    requires Finished(env, files, b, n, r) && Extends(a, b)
    ensures r.history != [] && Describes(env, b, r.history[0].state, EntryOf(seen))
    ensures r.history == h || (r.history[0].backup == Current && r.history[1..] == h)
  {
    hide PathOf, Resolves, Identity, HandleNodeChanges;
    if !NeedsFinish(n) { assert r.(subs := n.subs) == n; assert r.history == n.history; }
    if NeedsFinish(n) {
      var w := r.(subs := n.subs);
      assert w.history == r.history;
      assert StoresContent(n.hint);
    }
    if seen.Some? {
      SeenDescribes(env, files, a, b, h, last, seen.value, n, r);
    }
  }

  lemma {:induction false} SeenDescribes(env: Env, files: map<Bytes, Entry>, a: Blobs, b: Blobs, h: seq<Point>, last: Option<Entry>, f: Found, n: Node, r: Node)
    requires Known(env, a, h, last) && Stepped(env, h, Some(f), n) && Visible(env, last, Some(f.entry))
    requires !f.entry.Other? && f.policy.Track? && f.path == n.path && Steady(f, files)
    requires Finished(env, files, b, n, r) && Extends(a, b)
    ensures r.history != [] && Describes(env, b, r.history[0].state, Some(f.entry))
    ensures r.history == h || (r.history[0].backup == Current && r.history[1..] == h)
  {
    hide PathOf, Resolves, Identity, HandleNodeChanges, Visible;
    var w := r.(subs := n.subs);
    assert w.history == r.history;
    if h == [] || h[0].state.NonExisting? {
      if f.entry.File? { EmptyResolves(env, b, StateOf(f.entry).info, f.entry.content); }
    } else {
      ComparedDescribes(env, a, h[0].state, last, f);
      var (hint, s) := HandleNodeChanges(env, NoHint, h[0].state, f);
      TrackedChanges(env, h[0].state, f);
      assert n.history[0].state == s;
      if NeedsFinish(n) {
        assert StoresContent(hint) && f.entry.File?;
        assert files[n.path] == f.entry;
      } else {
        assert r.history == n.history;
        DescribesExtended(env, a, b, s, Some(f.entry));
      }
    }
  }

  lemma {:induction false} DescribesExtended(env: Env, a: Blobs, b: Blobs, s: PathState, e: Option<Entry>)
    requires Describes(env, a, s, e) && Extends(a, b)
    ensures Describes(env, b, s, e)
  {
    hide PathOf;
    DescribesElsewhere(env, a, b, s, e);
  }

  // ----- the path through finishing, writing and loading -----

  ghost predicate AllFinished(env: Env, files: map<Bytes, Entry>, blobs: Blobs, ns: seq<Node>, rs: seq<Node>) {
    |rs| == |ns| && forall i :: 0 <= i < |ns| ==> Finished(env, files, blobs, ns[i], rs[i])
  }

  lemma {:induction false} FinishedLookup(env: Env, files: map<Bytes, Entry>, blobs: Blobs, ns: seq<Node>, rs: seq<Node>, path: Bytes)
    requires AllFinished(env, files, blobs, ns, rs)
    ensures Sole(ns, path) ==> Sole(rs, path)
    ensures Lookup(ns, path).None? <==> Lookup(rs, path).None?
    ensures Lookup(ns, path).Some? ==> var n, r := Lookup(ns, path).value, Lookup(rs, path).value;
      && Finished(env, files, blobs, n, r) && AllFinished(env, files, blobs, n.subs, r.subs)
      && n.path == path && n.hint == r.hint
      && HeadState(r).Directory? == HeadState(n).Directory? && HeadState(r).NonExisting? == HeadState(n).NonExisting?
  {
    hide Resolves, Finished;
    forall i | 0 <= i < |ns| ensures Alike(ns[i], rs[i]) { FinishedIsAlike(env, files, blobs, ns[i], rs[i]); }
    SamePathsLookup(ns, rs, path);
    if Lookup(ns, path).Some? {
      var n, r := Lookup(ns, path).value, Lookup(rs, path).value;
      assert Alike(n, r);
      if n.history != [] { assert AlikePoint(n.history[0], r.history[0]); }
      FinishedSubs(env, files, blobs, n, r);
    }
  }

  lemma {:induction false} FinishedSubs(env: Env, files: map<Bytes, Entry>, blobs: Blobs, n: Node, r: Node)
    requires Finished(env, files, blobs, n, r)
    ensures AllFinished(env, files, blobs, n.subs, r.subs)
  {
    hide Resolves;
  }

  lemma {:induction false} FinishedChain(env: Env, files: map<Bytes, Entry>, blobs: Blobs, ns: seq<Node>, rs: seq<Node>, links: Links)
    requires AllFinished(env, files, blobs, ns, rs)
    ensures Gone(ns, links) ==> Gone(rs, links)
    ensures Coherent(ns, links) ==> Coherent(rs, links)
    ensures Live(ns, links) ==> Live(rs, links)
    ensures Locate(ns, links).None? <==> Locate(rs, links).None?
    ensures Locate(ns, links).Some? ==> Finished(env, files, blobs, Locate(ns, links).value, Locate(rs, links).value)
    decreases |links|
  {
    hide Finished;
    FinishedLookup(env, files, blobs, ns, rs, links[0]);
    if Lookup(ns, links[0]).Some? && |links| > 1 {
      FinishedChain(env, files, blobs, Lookup(ns, links[0]).value.subs, Lookup(rs, links[0]).value.subs, links[1..]);
    }
  }

  lemma {:induction false} FinishedBelow(env: Env, files: map<Bytes, Entry>, blobs: Blobs, ns: seq<Node>, rs: seq<Node>, links: Links, dirs: nat)
    requires AllFinished(env, files, blobs, ns, rs) && CoherentBelow(ns, links, dirs)
    ensures CoherentBelow(rs, links, dirs)
    decreases |links|
  {
    hide Finished;
    FinishedLookup(env, files, blobs, ns, rs, links[0]);
    if dirs == 0 {
      FinishedChain(env, files, blobs, ns, rs, links);
    } else if Lookup(ns, links[0]).Some? && |links| > 1 {
      FinishedBelow(env, files, blobs, Lookup(ns, links[0]).value.subs, Lookup(rs, links[0]).value.subs, links[1..], dirs - 1);
    }
  }

  lemma {:induction false} LookupConcat(a: seq<Node>, b: seq<Node>, path: Bytes)
    ensures Lookup(a + b, path) == if Lookup(a, path).Some? then Lookup(a, path) else Lookup(b, path)
  {
    if a == [] { assert a + b == b; } else {
      assert (a + b)[1..] == a[1..] + b;
      LookupConcat(a[1..], b, path);
    }
  }

  /** Reversing a list does not matter to a path that it holds once. */
  lemma {:induction false} NormLookup(ns: seq<Node>, ids: Ids, path: Bytes)
    requires Sole(ns, path)
    ensures Sole(NormNodes(ns, ids), path)
    ensures Lookup(NormNodes(ns, ids), path) ==
      if Lookup(ns, path).Some? && !Wiped(Lookup(ns, path).value) then Some(NormNode(Lookup(ns, path).value, ids)) else None
  {
    hide NormNode;
    if ns != [] {
      var last := if Wiped(ns[0]) then [] else [NormNode(ns[0], ids)];
      NormPath(ns[0], ids);
      SoleTail(ns, path);
      NormLookup(ns[1..], ids, path);
      LookupConcat(NormNodes(ns[1..], ids), last, path);
      if ns[0].path == path { NoneThere(NormNodes(ns[1..], ids), path); }
    }
  }

  lemma {:induction false} SoleTail(ns: seq<Node>, path: Bytes)
    requires ns != [] && Sole(ns, path)
    ensures Sole(ns[1..], path)
    ensures ns[0].path == path ==> Lookup(ns[1..], path).None?
  {
    assert forall i :: 0 <= i < |ns| - 1 ==> ns[1..][i] == ns[i + 1];
  }

  lemma {:induction false} NoneThere(ns: seq<Node>, path: Bytes)
    requires Lookup(ns, path).None?
    ensures forall i :: 0 <= i < |ns| ==> ns[i].path != path
  {
  }

  lemma {:induction false} NormPath(n: Node, ids: Ids)
    ensures NormNode(n, ids).path == n.path
    ensures NormNode(n, ids).subs == NormNodes(n.subs, ids) && NormNode(n, ids).history == NormHistory(n.history, ids)
    ensures HeadState(NormNode(n, ids)).Directory? == HeadState(n).Directory?
    ensures HeadState(NormNode(n, ids)).NonExisting? == HeadState(n).NonExisting?
  {
  }

  lemma {:induction false} NormCoherent(ns: seq<Node>, ids: Ids, links: Links)
    ensures Coherent(ns, links) && Gone(ns, links) ==> Gone(NormNodes(ns, ids), links)
    ensures Coherent(ns, links) ==> Coherent(NormNodes(ns, ids), links)
    decreases |links|
  {
    hide NormNode, NormNodes;
    if Coherent(ns, links) {
      NormLookup(ns, ids, links[0]);
      if Lookup(ns, links[0]).Some? {
        NormPath(Lookup(ns, links[0]).value, ids);
        if |links| > 1 { NormCoherent(Lookup(ns, links[0]).value.subs, ids, links[1..]); }
      }
    }
  }

  lemma {:induction false} NormBelow(ns: seq<Node>, ids: Ids, links: Links, dirs: nat)
    requires CoherentBelow(ns, links, dirs)
    ensures CoherentBelow(NormNodes(ns, ids), links, dirs)
    ensures Live(ns, links) ==> HistoryAt(NormNodes(ns, ids), links) == NormHistory(HistoryAt(ns, links), ids)
    decreases |links|
  {
    hide NormNode, NormNodes;
    NormLookup(ns, ids, links[0]);
    if dirs == 0 { NormCoherent(ns, ids, links); }
    if Lookup(ns, links[0]).Some? {
      NormPath(Lookup(ns, links[0]).value, ids);
      if |links| > 1 { NormBelow(Lookup(ns, links[0]).value.subs, ids, links[1..], if dirs == 0 then 0 else dirs - 1); }
    }
  }

  // ----- what the writer keeps of the path -----

  lemma {:induction false} MemberReferenced(ns: seq<Node>, i: nat)
    requires i < |ns| && !Wiped(ns[i])
    ensures PointPaths(ns[i].history) + ReferencedPaths(ns[i].subs) <= ReferencedPaths(ns)
  {
    if i > 0 { MemberReferenced(ns[1..], i - 1); }
  }

  lemma {:induction false} LocatedReferenced(l: Ledger, ns: seq<Node>, links: Links)
    requires Live(ns, links) && AllHeld(l, ns) && Locate(ns, links).Some?
    ensures PointPaths(HistoryAt(ns, links)) <= ReferencedPaths(ns)
    ensures AllReferenced(l, HistoryAt(ns, links))
    decreases |links|
  {
    hide PointPaths, ReferencedPaths, AllReferenced;
    var i := IndexOf(ns, links[0]);
    assert Held(l, ns[i]);
    MemberReferenced(ns, i);
    if |links| > 1 { LocatedReferenced(l, ns[i].subs, links[1..]); }
  }

  // ----- the log -----

  /** What the committed runs saw of the path, oldest first. */
  type Log = seq<Option<Entry>>

  predicate Appeared(log: Log, j: nat) { exists k :: 0 <= k <= j && k < |log| && log[k].Some? }

  function RunOf(runs: seq<nat>, now: nat, b: BackupRef): nat {
    match b case Current => now case Past(i) => if i < |runs| then runs[i] else 0
  }

  /** The newest recorded state that is not newer than run j. */
  function AsOf(h: seq<Point>, runs: seq<nat>, now: nat, j: nat): Option<PathState> {
    if h == [] then None
    else if RunOf(runs, now, h[0].backup) <= j then Some(h[0].state)
    else AsOf(h[1..], runs, now, j)
  }

  /** An answer is right: nothing before the path first appeared, what the run saw afterwards. */
  ghost predicate Right(env: Env, blobs: Blobs, answer: Option<PathState>, log: Log, j: nat)
    requires j < |log|
  {
    if Appeared(log, j) then answer.Some? && Describes(env, blobs, answer.value, log[j]) else answer.None?
  }

  /** The run numbers of the backups in the metadata, newest first. */
  ghost predicate RunsInOrder(runs: seq<nat>, now: nat) {
    && (forall i :: 0 <= i < |runs| ==> runs[i] < now)
    && (forall i, j :: 0 <= i < j < |runs| ==> runs[i] > runs[j])
  }

  ghost predicate Explains(env: Env, blobs: Blobs, h: seq<Point>, runs: seq<nat>, log: Log) {
    && (h == [] <==> forall k :: 0 <= k < |log| ==> log[k].None?)
    && (forall j {:trigger AsOf(h, runs, |log|, j)} :: 0 <= j < |log| ==> Right(env, blobs, AsOf(h, runs, |log|, j), log, j))
  }

  lemma {:induction false} AsOfNow(h: seq<Point>, runs: seq<nat>, now: nat)
    requires RunsInOrder(runs, now) && (now > 0 || h == []) && forall i :: 0 <= i < |h| ==> h[i].backup.Past?
    ensures now > 0 ==> AsOf(h, runs, now, now - 1) == if h == [] then None else Some(h[0].state)
  {
  }

  /** The run numbers by new id. */
  function Renamed(l: Ledger, now: nat, runs: seq<nat>): (r: seq<nat>)
    requires |runs| == |l.pastRefs|
    ensures |r| == IdCount(l)
  {
    Table<nat>(l, now, runs)
  }

  /** Compacting the ids keeps every answer. */
  lemma {:induction false} AsOfAfter(l: Ledger, h: seq<Point>, runs: seq<nat>, now: nat, later: nat, j: nat)
    requires ValidLedger(l) && AllReferenced(l, h) && |runs| == |l.pastRefs|
    ensures AsOf(NormHistory(h, NewIds(l)), Renamed(l, now, runs), later, j) == NormOption(AsOf(h, runs, now, j))
  {
    hide NewIds, NormState, Table;
    if h != [] {
      TableEntry(l, now, runs, h[0].backup);
      assert NormHistory(h, NewIds(l))[1..] == NormHistory(h[1..], NewIds(l));
      AsOfAfter(l, h[1..], runs, now, later, j);
    }
  }

  /** Only points of past backups: the current run number does not matter. */
  lemma {:induction false} AsOfPast(h: seq<Point>, runs: seq<nat>, now: nat, later: nat, j: nat)
    requires forall i :: 0 <= i < |h| ==> h[i].backup.Past?
    ensures AsOf(h, runs, now, j) == AsOf(h, runs, later, j)
  {
    if h != [] { AsOfPast(h[1..], runs, now, later, j); }
  }

  /** A new point is not seen from older runs. */
  lemma {:induction false} AsOfBefore(h: seq<Point>, k: seq<Point>, runs: seq<nat>, now: nat, j: nat)
    requires j < now && (k == h || (k != [] && k[0].backup == Current && k[1..] == h))
    requires forall i :: 0 <= i < |h| ==> h[i].backup.Past?
    ensures AsOf(k, runs, now, j) == AsOf(h, runs, now, j)
  {
  }

  lemma {:induction false} TableInOrder(l: Ledger, runs: seq<nat>, now: nat)
    requires ValidLedger(l) && |runs| == |l.pastRefs| && RunsInOrder(runs, now)
    ensures RunsInOrder(Renamed(l, now, runs), now + 1)
  {
    hide NewIds, Table;
    var t := Renamed(l, now, runs);
    forall i, j | 0 <= i <= j < |t| ensures t[i] < now + 1 && (i < j ==> t[i] > t[j]) {
      var a := IdsAreOnto(l, i);
      var b := IdsAreOnto(l, j);
      TableEntry(l, now, runs, a);
      TableEntry(l, now, runs, b);
      IdsAreMonotone(l, a, b);
    }
  }

  /** One run keeps every answer about the past right and adds the right one for itself. */
  lemma {:induction false} ExplainsLater(env: Env, a: Blobs, b: Blobs, l: Ledger, h: seq<Point>, k: seq<Point>, runs: seq<nat>, log: Log, e: Option<Entry>)
    requires Explains(env, a, h, runs, log) && RunsInOrder(runs, |log|) && OnlyPast(h)
    requires ValidLedger(l) && AllReferenced(l, k) && |runs| == |l.pastRefs|
    requires k == h || (k != [] && k[0].backup == Current && k[1..] == h)
    requires k == [] ==> h == [] && e.None?
    requires k != [] ==> (h != [] || e.Some?) && Describes(env, b, k[0].state, e)
    requires forall i :: 0 <= i < |h| ==> StillThere(a, b, h[i].state)
    ensures Explains(env, b, NormHistory(k, NewIds(l)), Renamed(l, |log|, runs), log + [e])
  {
    hide NewIds, Renamed, NormHistory, Describes;
    var now := |log|;
    var after := NormHistory(k, NewIds(l));
    var later := log + [e];
    assert forall i :: 0 <= i < now ==> later[i] == log[i];
    assert later[now] == e;
    forall j {:trigger AsOf(after, Renamed(l, now, runs), |later|, j)} | 0 <= j < |later|
      ensures Right(env, b, AsOf(after, Renamed(l, now, runs), |later|, j), later, j)
    {
      AsOfAfter(l, k, runs, now, |later|, j);
      if j < now {
        AsOfBefore(h, k, runs, now, j);
        assert Right(env, a, AsOf(h, runs, now, j), log, j);
        assert Appeared(later, j) == Appeared(log, j);
        if Appeared(log, j) {
          AsOfStays(env, a, b, h, runs, now, j, log[j]);
          DescribesNorm(env, b, AsOf(h, runs, now, j).value, log[j]);
        }
      } else if k != [] {
        assert RunOf(runs, now, k[0].backup) <= now by { NewestRun(h, k, runs, now); }
        DescribesNorm(env, b, k[0].state, e);
        AppearedNow(h, log, e);
      }
    }
    NothingYet(h, k, log, e);
  }

  predicate StillThere(a: Blobs, b: Blobs, s: PathState) {
    Stored(s) && PathOf(s.info) in a ==> PathOf(s.info) in b && b[PathOf(s.info)] == a[PathOf(s.info)]
  }

  lemma {:induction false} NewestRun(h: seq<Point>, k: seq<Point>, runs: seq<nat>, now: nat)
    requires RunsInOrder(runs, now) && k != []
    ensures RunOf(runs, now, k[0].backup) <= now
  {
  }

  lemma {:induction false} AppearedNow(h: seq<Point>, log: Log, e: Option<Entry>)
    requires h == [] <==> forall k :: 0 <= k < |log| ==> log[k].None?
    requires h != [] || e.Some?
    ensures Appeared(log + [e], |log|)
  {
    if h != [] {
      var k :| 0 <= k < |log| && log[k].Some?;
      assert (log + [e])[k].Some?;
    } else {
      assert (log + [e])[|log|].Some?;
    }
  }

  lemma {:induction false} NothingYet(h: seq<Point>, k: seq<Point>, log: Log, e: Option<Entry>)
    requires h == [] <==> forall i :: 0 <= i < |log| ==> log[i].None?
    requires k == [] ==> h == [] && e.None?
    requires k != [] ==> h != [] || e.Some?
    ensures k == [] <==> forall i :: 0 <= i < |log + [e]| ==> (log + [e])[i].None?
  {
    var later := log + [e];
    assert forall i :: 0 <= i < |log| ==> later[i] == log[i];
    assert later[|log|] == e;
  }

  lemma {:induction false} AsOfStays(env: Env, a: Blobs, b: Blobs, h: seq<Point>, runs: seq<nat>, now: nat, j: nat, e: Option<Entry>)
    requires AsOf(h, runs, now, j).Some? && Describes(env, a, AsOf(h, runs, now, j).value, e)
    requires forall i :: 0 <= i < |h| ==> StillThere(a, b, h[i].state)
    ensures Describes(env, b, AsOf(h, runs, now, j).value, e)
  {
    hide Describes, PathOf;
    if RunOf(runs, now, h[0].backup) <= j {
      assert StillThere(a, b, h[0].state);
      DescribesElsewhere(env, a, b, h[0].state, e);
    } else {
      assert forall i :: 0 <= i < |h[1..]| ==> h[1..][i] == h[i + 1];
      AsOfStays(env, a, b, h[1..], runs, now, j, e);
    }
  }

  // ----- one run -----

  function LogOf(rs: seq<Run>, links: Links): (log: Log)
    ensures |log| == |rs|
  {
    seq(|rs|, i requires 0 <= i < |rs| => EntryOf(Sight(rs[i].found, links)))
  }

  /** What holds after a number of runs, where numbers[id] is the run that made the backup id. */
  ghost predicate Trail(env: Env, root: SearchNode, s: Repo, numbers: seq<nat>, rs: seq<Run>, links: Links, dirs: nat) {
    && Sound(env, root, s) && CoherentBelow(s.paths, links, dirs)
    && |numbers| == |s.times| && RunsInOrder(numbers, |rs|)
    && (forall i :: 0 <= i < |numbers| ==> s.times[i] == rs[numbers[i]].time)
    && Explains(env, s.blobs, HistoryAt(s.paths, links), numbers, LogOf(rs, links))
  }

  lemma {:induction false} LocatedUntouched(env: Env, rule: Rule, ns: seq<Node>, links: Links)
    requires Expected(env, rule, ns) && Locate(ns, links).Some?
    ensures Untouched(Locate(ns, links).value)
    decreases |links|
  {
    hide RuleFor;
    ExpectedLink(env, rule, ns, links[0]);
    if |links| > 1 { LocatedUntouched(env, RuleFor(env, rule, links[0]).value, Lookup(ns, links[0]).value.subs, links[1..]); }
  }

  lemma {:induction false} LocatedTracked(env: Env, rule: Rule, ns: seq<Node>, links: Links, dirs: nat)
    requires Expected(env, rule, ns) && Locate(ns, links).Some? && CoveredBy(env, rule, links, dirs)
    ensures Locate(ns, links).value.policy.Track?
    decreases |links|
  {
    hide RuleFor;
    ExpectedLink(env, rule, ns, links[0]);
    if |links| > 1 {
      LocatedTracked(env, RuleFor(env, rule, links[0]).value, Lookup(ns, links[0]).value.subs, links[1..], if dirs == 0 then 0 else dirs - 1);
    }
  }

  lemma {:induction false} LocatedPath(ns: seq<Node>, links: Links)
    requires Locate(ns, links).Some?
    ensures Locate(ns, links).value.path == links[|links| - 1]
    decreases |links|
  {
    if |links| > 1 { LocatedPath(Lookup(ns, links[0]).value.subs, links[1..]); }
  }

  lemma {:induction false} SightIs(env: Env, rule: Rule, fs: seq<Found>, links: Links, dirs: nat, files: map<Bytes, Entry>)
    requires AllObey(env, rule, fs) && DistinctPaths(fs) && AllSteady(fs, files) && CoveredBy(env, rule, links, dirs)
    requires Sight(fs, links).Some?
    ensures var f := Sight(fs, links).value;
      f.path == links[|links| - 1] && !f.entry.Other? && f.policy.Track? && Steady(f, files)
    decreases |links|
  {
    hide RuleFor;
    FoundLink(env, rule, fs, links[0]);
    FindFoundIn(fs, links[0]);
    var f := FindFound(fs, links[0]).value;
    if |links| > 1 { SightIs(env, Rule(f.node, f.policy), f.children, links[1..], if dirs == 0 then 0 else dirs - 1, files); }
  }

  /** The path after a run, before it is written. */
  ghost predicate Passed(env: Env, root: SearchNode, s: Repo, run: Run, links: Links, dirs: nat, blobs: Blobs, ns: seq<Node>) {
    var l := LedgerAfter(env, root, s, run);
    var h, k, e := HistoryAt(s.paths, links), HistoryAt(ns, links), EntryOf(Sight(run.found, links));
    && CoherentBelow(ns, links, dirs) && Live(ns, links)
    && OnlyPast(h) && AllReferenced(l, k) && PointPaths(k) <= ReferencedPaths(ns)
    && (k == h || (k != [] && k[0].backup == Current && k[1..] == h))
    && (k == [] ==> h == [] && e.None?)
    && (k != [] ==> (h != [] || e.Some?) && Describes(env, blobs, k[0].state, e))
  }

  lemma {:induction false} RunPasses(env: Env, root: SearchNode, s: Repo, run: Run, links: Links, dirs: nat, last: Option<Entry>)
    requires Sound(env, root, s) && ProperRun(env, root, run) && CoherentBelow(s.paths, links, dirs)
    requires FinishList(env, run.files, s.blobs, Searched(env, root, s, run)).Some?
    requires CoveredBy(env, RootRule(root), links, dirs) && SeesDirectories(run.found, links, dirs)
    requires Known(env, s.blobs, HistoryAt(s.paths, links), last) && Visible(env, last, EntryOf(Sight(run.found, links)))
    ensures var (blobs, ns) := FinishList(env, run.files, s.blobs, Searched(env, root, s, run)).value;
      Passed(env, root, s, run, links, dirs, blobs, ns)
  {
    hide StoreOk, Written, Stocked, FinishList, Finished, Follows, LedgerAfter, PointPaths, ReferencedPaths, Describes, Visible, RuleFor;
    var rule := RootRule(root);
    var before := Searched(env, root, s, run);
    SearchedInOrder(env, root, s, run);
    FinishListLaw(env, run.files, s.blobs, before);
    var (blobs, ns) := FinishList(env, run.files, s.blobs, before).value;
    ChainPass(env, rule, s.paths, run.found, links, dirs);
    FinishedChain(env, run.files, blobs, before, ns, links);
    FinishedBelow(env, run.files, blobs, before, ns, links, dirs);
    PassedHistory(env, root, s, run, links, dirs, last, blobs, ns);
  }

  lemma {:induction false} PassedHistory(env: Env, root: SearchNode, s: Repo, run: Run, links: Links, dirs: nat, last: Option<Entry>, blobs: Blobs, ns: seq<Node>)
    requires Sound(env, root, s) && ProperRun(env, root, run) && CoveredBy(env, RootRule(root), links, dirs)
    requires FinishList(env, run.files, s.blobs, Searched(env, root, s, run)) == Some((blobs, ns))
    requires Known(env, s.blobs, HistoryAt(s.paths, links), last) && Visible(env, last, EntryOf(Sight(run.found, links)))
    requires Follows(env, s.paths, Sight(run.found, links), Searched(env, root, s, run), links)
    requires CoherentBelow(ns, links, dirs) && Live(ns, links)
    requires Locate(Searched(env, root, s, run), links).None? <==> Locate(ns, links).None?
    requires Locate(Searched(env, root, s, run), links).Some? ==>
      Finished(env, run.files, blobs, Locate(Searched(env, root, s, run), links).value, Locate(ns, links).value)
    ensures Passed(env, root, s, run, links, dirs, blobs, ns)
  {
    hide StoreOk, Stocked, FinishList, Finished, Searched, LedgerAfter, PathOf, ReferencedPaths, Describes, Visible, RuleFor, HandleNodeChanges, CoherentBelow, Held, InOrder, Live;
    var before := Searched(env, root, s, run);
    var seen := Sight(run.found, links);
    var h := HistoryAt(s.paths, links);
    RunWrites(env, root, s, run);
    if seen.Some? { SightIs(env, RootRule(root), run.found, links, dirs, run.files); }
    if Locate(s.paths, links).Some? { LocatedUntouched(env, RootRule(root), s.paths, links); }
    if Locate(ns, links).Some? {
      LocatedPath(before, links);
      LocatedReferenced(LedgerAfter(env, root, s, run), ns, links);
      NewestDescribes(env, run.files, s.blobs, blobs, h, last, seen, Locate(before, links).value, Locate(ns, links).value);
    }
  }

  /** Everything an old answer needs is still stored after the run. */
  lemma {:induction false} NothingLost(a: Blobs, blobs: Blobs, ns: seq<Node>, h: seq<Point>, k: seq<Point>)
    requires Extends(a, blobs) && PointPaths(k) <= ReferencedPaths(ns)
    requires k == h || (k != [] && k[1..] == h)
    ensures forall i :: 0 <= i < |h| ==> StillThere(a, Collect(blobs, Preserved(ns)), h[i].state)
    ensures k != [] ==> StillThere(blobs, Collect(blobs, Preserved(ns)), k[0].state)
  {
    hide PathOf, PointPaths, ReferencedPaths;
    var at := if k == h then 0 else 1;
    forall i | 0 <= i < |h| ensures StillThere(a, Collect(blobs, Preserved(ns)), h[i].state) {
      assert k[i + at] == h[i];
      if Stored(h[i].state) { PointIsReferenced(k, i + at); }
    }
    if k != [] && Stored(k[0].state) { PointIsReferenced(k, 0); }
  }

  lemma {:induction false} TimesOfRuns(l: Ledger, numbers: seq<nat>, rs: seq<Run>, run: Run)
    requires ValidLedger(l) && |numbers| == |l.pastTimes| && l.currentTime == run.time
    requires RunsInOrder(numbers, |rs|) && forall i :: 0 <= i < |numbers| ==> l.pastTimes[i] == rs[numbers[i]].time
    ensures var t := Renamed(l, |rs|, numbers);
      |t| == |NewTimes(l)| && forall i :: 0 <= i < |t| ==> t[i] <= |rs| && NewTimes(l)[i] == (rs + [run])[t[i]].time
  {
    hide NewIds, Table;
    var t := Renamed(l, |rs|, numbers);
    forall i | 0 <= i < |t| ensures t[i] <= |rs| && NewTimes(l)[i] == (rs + [run])[t[i]].time {
      var b := IdsAreOnto(l, i);
      TableEntry<nat>(l, |rs|, numbers, b);
      TableEntry(l, l.currentTime, l.pastTimes, b);
    }
  }

  lemma {:induction false} LastSeen(env: Env, s: Repo, numbers: seq<nat>, log: Log, links: Links)
    requires RunsInOrder(numbers, |log|) && OnlyPast(HistoryAt(s.paths, links))
    requires Explains(env, s.blobs, HistoryAt(s.paths, links), numbers, log)
    ensures Known(env, s.blobs, HistoryAt(s.paths, links), if log == [] then None else log[|log| - 1])
  {
    hide Describes, HistoryAt;
    var h := HistoryAt(s.paths, links);
    if h != [] {
      AsOfNow(h, numbers, |log|);
      assert Right(env, s.blobs, AsOf(h, numbers, |log|, |log| - 1), log, |log| - 1);
      var k :| 0 <= k < |log| && log[k].Some?;
      assert Appeared(log, |log| - 1);
    }
  }

  /** The last run's view, for the comparison with the next one. */
  function LastEntry(rs: seq<Run>, links: Links): Option<Entry> {
    if rs == [] then None else EntryOf(Sight(rs[|rs| - 1].found, links))
  }

  /** One more run under the hypotheses of the theorem. */
  ghost predicate Continues(env: Env, root: SearchNode, s: Repo, rs: seq<Run>, run: Run, links: Links, dirs: nat) {
    && ProperRun(env, root, run) && Completes(env, root, s, run)
    && SeesDirectories(run.found, links, dirs)
    && Visible(env, LastEntry(rs, links), EntryOf(Sight(run.found, links)))
  }

  lemma {:induction false} TrailStep(env: Env, root: SearchNode, s: Repo, numbers: seq<nat>, rs: seq<Run>, run: Run, links: Links, dirs: nat)
    requires CoveredBy(env, RootRule(root), links, dirs)
    requires Trail(env, root, s, numbers, rs, links, dirs) && Continues(env, root, s, rs, run, links, dirs)
    ensures Next(env, root, s, run).Some?
    ensures |numbers| == |s.refs| == |LedgerAfter(env, root, s, run).pastRefs|
    ensures Trail(env, root, Next(env, root, s, run).value, Renamed(LedgerAfter(env, root, s, run), |rs|, numbers), rs + [run], links, dirs)
  {
    hide Next, FinishList, Searched, CountAfter, NewIds, NewTimes, Renamed, StoreOk, Stocked, PathOf, Describes, Visible, FitsNodes, FitsHistory, ProperRun;
    hide CoherentBelow, CoveredBy, SeesDirectories, Live, NormHistory, Collect, Preserved, PointPaths, ReferencedPaths, Written, HistoryAt, Sight, Explains, RunsInOrder, Sound;
    TableSizes(env, root, s);
    var l := LedgerAfter(env, root, s, run);
    var log := LogOf(rs, links);
    var e := EntryOf(Sight(run.found, links));
    RunKeepsSound(env, root, s, run);
    NextIs(env, root, s, run);
    RunWrites(env, root, s, run);
    var (blobs, ns) := FinishList(env, run.files, s.blobs, Searched(env, root, s, run)).value;
    var r := Next(env, root, s, run).value;
    OldHistory(env, root, s, links);
    LastSeen(env, s, numbers, log, links);
    RunPasses(env, root, s, run, links, dirs, LastEntry(rs, links));
    PassedExplains(env, root, s, numbers, run, links, dirs, log, blobs, ns);
    assert LogOf(rs + [run], links) == log + [e];
    NormBelow(ns, NewIds(l), links, dirs);
    TableInOrder(l, numbers, |rs|);
    TimesOfRuns(l, numbers, rs, run);
  }

  /** The answers once the path is written and the stored files are collected. */
  lemma {:induction false} PassedExplains(env: Env, root: SearchNode, s: Repo, numbers: seq<nat>, run: Run, links: Links, dirs: nat, log: Log, blobs: Blobs, ns: seq<Node>)
    requires Passed(env, root, s, run, links, dirs, blobs, ns) && Extends(s.blobs, blobs)
    requires ValidLedger(LedgerAfter(env, root, s, run)) && |numbers| == |s.refs|
    requires RunsInOrder(numbers, |log|) && Explains(env, s.blobs, HistoryAt(s.paths, links), numbers, log)
    ensures var l := LedgerAfter(env, root, s, run);
      Explains(env, Collect(blobs, Preserved(ns)), NormHistory(HistoryAt(ns, links), NewIds(l)), Renamed(l, |log|, numbers), log + [EntryOf(Sight(run.found, links))])
  {
    hide NewIds, Renamed, PathOf, Describes, CoherentBelow, Live, NormHistory, Preserved, PointPaths, ReferencedPaths, HistoryAt, Sight, Explains, RunsInOrder, CountAfter;
    var h, k, e := HistoryAt(s.paths, links), HistoryAt(ns, links), EntryOf(Sight(run.found, links));
    NothingLost(s.blobs, blobs, ns, h, k);
    if k != [] { DescribesElsewhere(env, blobs, Collect(blobs, Preserved(ns)), k[0].state, e); }
    ExplainsLater(env, s.blobs, Collect(blobs, Preserved(ns)), LedgerAfter(env, root, s, run), h, k, numbers, log, e);
  }

  lemma {:induction false} TableSizes(env: Env, root: SearchNode, s: Repo)
    requires Sound(env, root, s)
    ensures |s.refs| == |s.times|
  {
    hide StoreOk, Stocked;
  }

  lemma {:induction false} OldHistory(env: Env, root: SearchNode, s: Repo, links: Links)
    requires Sound(env, root, s)
    ensures OnlyPast(HistoryAt(s.paths, links))
  {
    hide StoreOk, Stocked;
    if Locate(s.paths, links).Some? { LocatedUntouched(env, RootRule(root), s.paths, links); }
  }

  // ----- any number of runs -----

  function After(env: Env, root: SearchNode, rs: seq<Run>): Option<Repo> {
    if rs == [] then Some(Blank)
    else
      var s :- After(env, root, rs[..|rs| - 1]);
      Next(env, root, s, rs[|rs| - 1])
  }

  /** The run that made each backup which the metadata still has, by id. */
  function Numbers(env: Env, root: SearchNode, rs: seq<Run>): seq<nat> {
    if rs == [] then []
    else
      var s, earlier := After(env, root, rs[..|rs| - 1]), Numbers(env, root, rs[..|rs| - 1]);
      if s.None? || |earlier| != |s.value.refs| then []
      else Renamed(LedgerAfter(env, root, s.value, rs[|rs| - 1]), |rs| - 1, earlier)
  }

  /** All runs follow the config, can be finished, find the leading links as directories, and show
      every content change of the path to the comparison. */
  ghost predicate Usual(env: Env, root: SearchNode, rs: seq<Run>, links: Links, dirs: nat) {
    rs == [] ||
    (var before := rs[..|rs| - 1];
     && Usual(env, root, before, links, dirs)
     && After(env, root, before).Some?
     && Continues(env, root, After(env, root, before).value, before, rs[|rs| - 1], links, dirs))
  }

  /** searchPathState() for a path in loaded metadata; None if the path is not there at all. */
  function Lookback(ns: seq<Node>, links: Links, id: nat): Option<PathState> {
    var n :- Locate(ns, links);
    SearchPathState(n.policy, n.history, id)
  }

  lemma {:induction false} LookbackIsAsOf(h: seq<Point>, numbers: seq<nat>, now: nat, id: nat)
    requires RunsInOrder(numbers, now) && id < |numbers|
    requires forall i :: 0 <= i < |h| ==> h[i].backup.Past? && h[i].backup.index < |numbers|
    ensures FirstAtOrBefore(h, id) == AsOf(h, numbers, now, numbers[id])
  {
    if h != [] {
      LookbackIsAsOf(h[1..], numbers, now, id);
      var i := h[0].backup.index;
      assert i >= id <==> numbers[i] <= numbers[id];
    }
  }

  lemma {:induction false} PointsInTable(env: Env, root: SearchNode, s: Repo, ns: seq<Node>, links: Links)
    requires CountsRight(s) && Locate(ns, links).Some?
    requires forall b {:trigger TallyAll(ns, Refs(b))} :: TallyAll(ns, Refs(b)) > 0 ==> b.Past? && b.index < |s.refs|
    requires Unwiped(ns, links)
    ensures forall i :: 0 <= i < |HistoryAt(ns, links)| ==> HistoryAt(ns, links)[i].backup.Past? && HistoryAt(ns, links)[i].backup.index < |s.refs|
    decreases |links|
  {
    hide CountsRight;
    var i := IndexOf(ns, links[0]);
    forall b {:trigger TallyAll(ns, Refs(b))} ensures TallyAll(ns, Refs(b)) >= Weight(ns[i], Refs(b)) + TallyAll(ns[i].subs, Refs(b)) {
      MemberTally(ns, i, Refs(b));
    }
    if |links| > 1 {
      forall b {:trigger TallyAll(ns[i].subs, Refs(b))} | TallyAll(ns[i].subs, Refs(b)) > 0 ensures b.Past? && b.index < |s.refs| {
        assert TallyAll(ns, Refs(b)) > 0;
      }
      PointsInTable(env, root, s, ns[i].subs, links[1..]);
      LocateInside(ns, links);
    } else {
      var h := HistoryAt(ns, links);
      forall j | 0 <= j < |h| ensures h[j].backup.Past? && h[j].backup.index < |s.refs| {
        CountsMember(h, j);
        assert TallyAll(ns, Refs(h[j].backup)) > 0;
      }
    }
  }

  /** Nothing on the way is wiped. */
  predicate Unwiped(ns: seq<Node>, links: Links)
    decreases |links|
  {
    var n := Lookup(ns, links[0]);
    n.Some? ==> !Wiped(n.value) && (|links| > 1 ==> Unwiped(n.value.subs, links[1..]))
  }

  lemma {:induction false} MemberTally(ns: seq<Node>, i: nat, c: Counter)
    requires i < |ns|
    ensures TallyAll(ns, c) >= Weight(ns[i], c) + TallyAll(ns[i].subs, c)
  {
    if i > 0 { MemberTally(ns[1..], i - 1, c); }
  }

  lemma {:induction false} LoadedUnwiped(env: Env, rule: Rule, ns: seq<Node>, links: Links)
    requires Expected(env, rule, ns)
    ensures Unwiped(ns, links)
    decreases |links|
  {
    hide RuleFor;
    if Lookup(ns, links[0]).Some? {
      ExpectedLink(env, rule, ns, links[0]);
      if |links| > 1 { LoadedUnwiped(env, RuleFor(env, rule, links[0]).value, Lookup(ns, links[0]).value.subs, links[1..]); }
    }
  }

  lemma {:induction false} TrailAfter(env: Env, root: SearchNode, rs: seq<Run>, links: Links, dirs: nat)
    requires CoveredBy(env, RootRule(root), links, dirs) && Usual(env, root, rs, links, dirs)
    ensures After(env, root, rs).Some?
    ensures Trail(env, root, After(env, root, rs).value, Numbers(env, root, rs), rs, links, dirs)
  {
    hide Sound, Continues, Next, LedgerAfter, CoveredBy, Explains, RunsInOrder;
    if rs == [] {
      BlankTrail(env, root, links, dirs);
    } else {
      var before := rs[..|rs| - 1];
      TrailAfter(env, root, before, links, dirs);
      assert before + [rs[|rs| - 1]] == rs;
      TrailStep(env, root, After(env, root, before).value, Numbers(env, root, before), before, rs[|rs| - 1], links, dirs);
    }
  }

  lemma {:induction false} BlankTrail(env: Env, root: SearchNode, links: Links, dirs: nat)
    ensures Trail(env, root, Blank, [], [], links, dirs)
  {
    BlankIsSound(env, root);
    NothingBelowEmpty(links, dirs);
  }

  /** The answers of a repository whose runs are known. */
  lemma {:induction false} LookupIsExact(env: Env, root: SearchNode, s: Repo, numbers: seq<nat>, rs: seq<Run>, links: Links, dirs: nat, id: nat)
    requires CoveredBy(env, RootRule(root), links, dirs) && Trail(env, root, s, numbers, rs, links, dirs) && id < |s.times|
    ensures |numbers| == |s.times| && numbers[id] < |rs| && s.times[id] == rs[numbers[id]].time
    ensures Right(env, s.blobs, Lookback(s.paths, links, id), LogOf(rs, links), numbers[id])
  {
    hide StoreOk, Stocked, CoherentBelow, Describes, Right;
    var h := HistoryAt(s.paths, links);
    LoadedUnwiped(env, RootRule(root), s.paths, links);
    if Locate(s.paths, links).Some? {
      LocatedTracked(env, RootRule(root), s.paths, links, dirs);
      LocatedUntouched(env, RootRule(root), s.paths, links);
      forall b {:trigger TallyAll(s.paths, Refs(b))} | TallyAll(s.paths, Refs(b)) > 0 ensures b.Past? && b.index < |s.refs| {
        assert PointCount(s, b) > 0;
      }
      PointsInTable(env, root, s, s.paths, links);
      LookbackIsAsOf(h, numbers, |rs|, id);
    }
    assert Right(env, s.blobs, AsOf(h, numbers, |rs|, numbers[id]), LogOf(rs, links), numbers[id]);
  }

  /** Time travel over whole runs. The config tracks the path; its ancestors are tracked too, or are
      found as directories by every run. Then, for every backup that is still referenced, looking the
      path up by the current id of that backup finds exactly what the run that made the backup saw:
      the entry with its content, or that the path was missing; and nothing at all for backups from
      before the path first appeared. */
  lemma {:induction false} TimeTravelIsExact(env: Env, root: SearchNode, rs: seq<Run>, links: Links, dirs: nat, id: nat)
    requires CoveredBy(env, RootRule(root), links, dirs) && Usual(env, root, rs, links, dirs)
    requires After(env, root, rs).Some? ==> id < |After(env, root, rs).value.times|
    ensures After(env, root, rs).Some?
    ensures var s, numbers := After(env, root, rs).value, Numbers(env, root, rs);
      && |numbers| == |s.times| && numbers[id] < |rs| && s.times[id] == rs[numbers[id]].time
      && Right(env, s.blobs, Lookback(s.paths, links, id), LogOf(rs, links), numbers[id])
  {
    hide Trail, Usual, Right, After, Numbers;
    TrailAfter(env, root, rs, links, dirs);
    LookupIsExact(env, root, After(env, root, rs).value, Numbers(env, root, rs), rs, links, dirs, id);
  }

  // ----- other stored files -----

  lemma {:induction false} LocatedPoints(ns: seq<Node>, links: Links)
    requires Unwiped(ns, links)
    ensures PointPaths(HistoryAt(ns, links)) <= ReferencedPaths(ns)
    decreases |links|
  {
    hide PointPaths, ReferencedPaths;
    if Lookup(ns, links[0]).Some? {
      var n := Lookup(ns, links[0]).value;
      MemberReferenced(ns, IndexOf(ns, links[0]));
      if |links| > 1 { LocatedPoints(n.subs, links[1..]); }
    } else {
      NoPoints();
    }
    if |links| > 1 && Lookup(ns, links[0]).Some? && Locate(ns, links).None? { NoPoints(); }
  }

  lemma {:induction false} NoPoints()
    ensures PointPaths([]) == {}
  {
  }

  /** The answers only depend on the stored files that the metadata refers to. */
  lemma {:induction false} TrailWith(env: Env, root: SearchNode, s: Repo, blobs: Blobs, numbers: seq<nat>, rs: seq<Run>, links: Links, dirs: nat)
    requires Trail(env, root, s, numbers, rs, links, dirs) && Sound(env, root, s.(blobs := blobs))
    requires forall p :: p in ReferencedPaths(s.paths) && p in s.blobs ==> p in blobs && blobs[p] == s.blobs[p]
    ensures Trail(env, root, s.(blobs := blobs), numbers, rs, links, dirs)
  {
    hide Sound, CoherentBelow, RunsInOrder, Describes, ReferencedPaths, PointPaths;
    var h, log := HistoryAt(s.paths, links), LogOf(rs, links);
    assert Unwiped(s.paths, links) by { SoundUnwiped(env, root, s, links); }
    LocatedPoints(s.paths, links);
    forall i | 0 <= i < |h| ensures StillThere(s.blobs, blobs, h[i].state) {
      if Stored(h[i].state) { PointIsReferenced(h, i); }
    }
    forall j {:trigger AsOf(h, numbers, |log|, j)} | 0 <= j < |log| ensures Right(env, blobs, AsOf(h, numbers, |log|, j), log, j) {
      assert Right(env, s.blobs, AsOf(h, numbers, |log|, j), log, j);
      if AsOf(h, numbers, |log|, j).Some? && Appeared(log, j) { AsOfStays(env, s.blobs, blobs, h, numbers, |log|, j, log[j]); }
    }
  }

  lemma {:induction false} SoundUnwiped(env: Env, root: SearchNode, s: Repo, links: Links)
    requires Sound(env, root, s)
    ensures Unwiped(s.paths, links)
  {
    hide StoreOk;
    LoadedUnwiped(env, RootRule(root), s.paths, links);
  }
}
