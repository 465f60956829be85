/** Whole runs of the program with one config: load, search, compare, store, write, collect. */
module Runs {
  import opened Data
  import opened Str
  import opened Metadata
  import opened Backup
  import opened BackupFrame
  import opened RefCounts
  import opened RefCountsExact
  import opened History
  import opened Wiping
  import opened FixedConfig
  import opened RepoPath
  import opened BlobStore
  import opened Finishing
  import opened Codec
  import opened CodecRoundTrip
  import opened Renumber
  import opened GarbageCollector
  import opened Stock

  /** A repository between two runs: the metadata as it is loaded, and the stored files. */
  datatype Repo = Repo(paths: seq<Node>, refs: seq<int>, times: seq<I64>, config: seq<Point>, total: int, blobs: Blobs)

  /** What one run sees: the search results, the files it copies, and the time it completes. */
  datatype Run = Run(found: seq<Found>, files: map<Bytes, Entry>, time: I64)

  const Blank: Repo := Repo([], [], [], [], 0, map[])

  function Searched(env: Env, root: SearchNode, s: Repo, run: Run): seq<Node> {
    InitiateBackup(env, s.paths, run.found, root)
  }

  function CountAfter(env: Env, root: SearchNode, s: Repo, run: Run, c: Counter): int {
    InitiateDelta(env, s.paths, run.found, root, c)
    + match c
      case Total => s.total
      case Refs(Current) => 0
      case Refs(Past(i)) => if i < |s.refs| then s.refs[i] else 0
  }

  function LedgerAfter(env: Env, root: SearchNode, s: Repo, run: Run): Ledger {
    Ledger(CountAfter(env, root, s, run, Refs(Current)), run.time,
           seq(|s.refs|, i requires 0 <= i < |s.refs| => CountAfter(env, root, s, run, Refs(Past(i)))), s.times)
  }

  /** The ref_counts that metadataLoad() computes. */
  function Recount(m: Image): seq<int> {
    seq(|m.times|, i requires 0 <= i < |m.times| => CountRef(m.config, Past(i)) + TallyAll(m.paths, Refs(Past(i))))
  }

  /** The stored files that garbage collection leaves. */
  function Collect(blobs: Blobs, keep: set<Bytes>): Blobs { map p | p in blobs && p in keep :: blobs[p] }

  /** One run (src/nb.c:254-309), up to loading the result in the next process. None if the program
      dies; a run without changes, or one that is not confirmed, leaves the repository alone. */
  function Next(env: Env, root: SearchNode, s: Repo, run: Run): Option<Repo> {
    var done :- FinishList(env, run.files, s.blobs, Searched(env, root, s, run));
    var total := CountAfter(env, root, s, run, Total);
    var l := LedgerAfter(env, root, s, run);
    if |l.pastTimes| != |l.pastRefs| || !(0 <= total <= SIZE_MAX) then None
    else
      var m :- Load(EncImage(Image(NewTimes(l), s.config, total, done.1), NewIds(l)));
      Some(Repo(m.paths, Recount(m), m.times, m.config, m.total, Collect(done.0, Preserved(done.1))))
  }

  // ----- hypotheses -----

  /** Search results that follow the config, name every path once, and do not change under way. */
  ghost predicate ProperRun(env: Env, root: SearchNode, run: Run) {
    AllObey(env, RootRule(root), run.found) && DistinctPaths(run.found) && AllSteady(run.found, run.files)
  }

  /** Every file could be stored, and all names, lengths and counts fit their fields. */
  ghost predicate Completes(env: Env, root: SearchNode, s: Repo, run: Run) {
    && FinishList(env, run.files, s.blobs, Searched(env, root, s, run)).Some?
    && CountAfter(env, root, s, run, Total) <= SIZE_MAX
    && |s.times| < SIZE_MAX
    && FitsHistory(s.config, Ids(0, []), 1)
    && FitsNodes(FinishList(env, run.files, s.blobs, Searched(env, root, s, run)).value.1, [], Ids(0, []), 1)
  }

  // ----- the invariant -----

  function PointCount(s: Repo, b: BackupRef): nat { CountRef(s.config, b) + TallyAll(s.paths, Refs(b)) }

  ghost predicate CountsRight(s: Repo) {
    && |s.refs| == |s.times|
    && (forall b :: PointCount(s, b) == if b.Past? && b.index < |s.refs| then s.refs[b.index] else 0)
  }

  /** What holds between any two runs. */
  ghost predicate Sound(env: Env, root: SearchNode, s: Repo) {
    && AllUntouched(s.paths) && (forall i :: 0 <= i < |s.paths| ==> Shaped(s.paths[i]))
    && AllPlain(s.paths) && AllConform(env, RootRule(root), s.paths)
    && CountsRight(s)
    && s.total == Emitted(s.paths)
    && StoreOk(env, s.blobs) && AllStocked(s.blobs, s.paths, false)
  }

  lemma {:induction false} BlankIsSound(env: Env, root: SearchNode)
    ensures Sound(env, root, Blank)
  {
  }

  // ----- a pass only adds references to the current backup -----

  lemma {:induction false} DecrementShrinks(h: seq<Point>, c: Counter)
    ensures DecrementDelta(h, c) <= 0
  {
  }

  lemma {:induction false} WipeShrinks(ns: seq<Node>, c: Counter)
    ensures WipeAllDelta(ns, c) <= 0
  {
    WipeAllCounts(ns, c);
  }

  lemma {:induction false} MarkShrinks(n: Node, extend: bool, i: nat)
    ensures MarkRemovedDelta(n, extend, Refs(Past(i))) == 0
    decreases n
  {
    if !Wiped(n) { MarkAllShrinks(n.subs, ExtendBelow(n, extend), i); }
  }

  lemma {:induction false} MarkAllShrinks(ns: seq<Node>, extend: bool, i: nat)
    ensures MarkRemovedAllDelta(ns, extend, Refs(Past(i))) == 0
    decreases ns
  {
    if ns != [] {
      MarkShrinks(ns[0], extend, i);
      MarkAllShrinks(ns[1..], extend, i);
    }
  }

  lemma {:induction false} PolicyShrinks(n: Node, policy: Policy, i: nat)
    ensures PolicyDelta(n, policy, Refs(Past(i))) <= 0
  {
    WipeShrinks(n.subs, Refs(Past(i)));
  }

  lemma {:induction false} NotFoundShrinks(env: Env, ns: seq<Node>, parent: Option<SearchNode>, policy: Policy, i: nat)
    ensures NotFoundAllDelta(env, ns, parent, policy, Refs(Past(i))) <= 0
  {
    if ns != [] {
      NotFoundShrinks(env, ns[1..], parent, policy, i);
      var p := SupposedPolicy(env, ns[0].path, parent, policy);
      WipeRecCounts(ns[0], Refs(Past(i)));
      if p.Some? {
        PolicyShrinks(ns[0], p.value, i);
        var n1 := HandlePolicyChanges(ns[0], p.value);
        WipeRecCounts(n1, Refs(Past(i)));
        MarkShrinks(n1, true, i);
      }
    }
  }

  lemma {:induction false} FoundShrinks(env: Env, n: Node, f: Found, i: nat)
    ensures FoundDelta(env, n, f, Refs(Past(i))) <= 0
  {
    hide HandleNodeChanges, HandlePolicyChanges, PolicyDelta;
    PolicyShrinks(n, f.policy, i);
  }

  lemma {:induction false} CompleteShrinks(env: Env, n: Node, f: Found, i: nat)
    ensures CompleteDelta(env, n, f, Refs(Past(i))) <= 0
  {
    hide HandleNotFoundAll, NotFoundAllDelta;
    MarkAllShrinks(n.subs, f.policy.Track?, i);
    MarkAllShrinks(n.subs, false, i);
    WipeShrinks(n.subs, Refs(Past(i)));
    NotFoundShrinks(env, n.subs, f.node, f.policy, i);
  }

  lemma {:induction false} MergeShrinks(env: Env, ns: seq<Node>, fs: seq<Found>, i: nat)
    ensures MergeAllDelta(env, ns, fs, Refs(Past(i))) <= 0
    decreases fs
  {
    hide HandleFoundNode, FoundDelta, CompleteNode, CompleteDelta;
    if fs != [] {
      var f := fs[0];
      if !f.entry.Other? {
        var k := IndexOf(ns, f.path);
        var n := if k == |ns| then NewNode(f) else HandleFoundNode(env, ns[k], f);
        if f.entry.Dir? { MergeShrinks(env, n.subs, f.children, i); }
        CompleteShrinks(env, MergeInside(env, n, f), f, i);
        if k < |ns| { FoundShrinks(env, ns[k], f, i); }
        assert MergeInsideDelta(env, n, f, Refs(Past(i))) <= 0;
      }
      assert MergeOneDelta(env, ns, f, Refs(Past(i))) <= 0;
      MergeShrinks(env, MergeOne(env, ns, f), fs[1..], i);
    }
  }

  // ----- the ledger of a run -----

  predicate InUse(l: Ledger, b: BackupRef) { InLedger(l, b) && Referenced(l, b) }

  /** Every point that is written refers to a backup that stays. */
  predicate Held(l: Ledger, n: Node)
    decreases n
  {
    !Wiped(n) ==> AllReferenced(l, n.history) && forall i :: 0 <= i < |n.subs| ==> Held(l, n.subs[i])
  }

  predicate AllHeld(l: Ledger, ns: seq<Node>) { forall i :: 0 <= i < |ns| ==> Held(l, ns[i]) }

  lemma {:induction false} CountsMember(h: seq<Point>, i: nat)
    requires i < |h|
    ensures CountRef(h, h[i].backup) > 0
  {
    if i > 0 { CountsMember(h[1..], i - 1); }
  }

  lemma {:induction false} CountedHistory(l: Ledger, h: seq<Point>)
    requires forall b {:trigger InUse(l, b)} :: CountRef(h, b) > 0 ==> InUse(l, b)
    ensures AllReferenced(l, h)
  {
    forall i | 0 <= i < |h| ensures InUse(l, h[i].backup) { CountsMember(h, i); }
  }

  lemma {:induction false} CountedIsHeld(l: Ledger, ns: seq<Node>)
    requires forall b {:trigger InUse(l, b)} :: TallyAll(ns, Refs(b)) > 0 ==> InUse(l, b)
    ensures AllHeld(l, ns)
    decreases ns
  {
    hide InUse;
    if ns != [] {
      forall b {:trigger InUse(l, b)}
        ensures TallyAll(ns, Refs(b)) == Weight(ns[0], Refs(b)) + TallyAll(ns[0].subs, Refs(b)) + TallyAll(ns[1..], Refs(b))
      {
      }
      if !Wiped(ns[0]) {
        forall b {:trigger InUse(l, b)} | CountRef(ns[0].history, b) > 0 ensures InUse(l, b) {
          assert Weight(ns[0], Refs(b)) == CountRef(ns[0].history, b);
        }
        CountedHistory(l, ns[0].history);
        CountedIsHeld(l, ns[0].subs);
      }
      CountedIsHeld(l, ns[1..]);
      assert forall i :: 1 <= i < |ns| ==> ns[i] == ns[1..][i - 1];
    }
  }

  function LedgerCount(l: Ledger, b: BackupRef): int {
    match b
    case Current => l.currentRefs
    case Past(i) => if i < |l.pastRefs| then l.pastRefs[i] else 0
  }

  /** After a pass the counters are the number of points that refer to each backup. */
  lemma {:induction false} LedgerIsRecount(env: Env, root: SearchNode, s: Repo, run: Run, b: BackupRef)
    requires Sound(env, root, s) && ProperRun(env, root, run)
    ensures CountRef(s.config, b) + TallyAll(Searched(env, root, s, run), Refs(b)) == LedgerCount(LedgerAfter(env, root, s, run), b)
  {
    hide InitiateBackup, InitiateDelta, StoreOk, Stocked, Shaped, Plain;
    NothingBlocked(env, RootRule(root), s.paths, run.found);
    SafeIffUnblocked(env, s.paths, run.found);
    PassConservesCounts(env, s.paths, run.found, root, Refs(b));
    assert PointCount(s, b) == if b.Past? && b.index < |s.refs| then s.refs[b.index] else 0;
    if b.Past? && b.index >= |s.refs| {
      DeltaShrinks(env, root, s, run, b.index);
    }
  }

  lemma {:induction false} DeltaShrinks(env: Env, root: SearchNode, s: Repo, run: Run, i: nat)
    ensures InitiateDelta(env, s.paths, run.found, root, Refs(Past(i))) <= 0
  {
    MergeShrinks(env, s.paths, run.found, i);
    NotFoundShrinks(env, MergeAll(env, s.paths, run.found), Some(root), root.policy, i);
  }

  lemma {:induction false} NewestFirstAfter(l: Ledger, h: seq<Point>)
    requires ValidLedger(l) && AllReferenced(l, h) && NewestFirst(h)
    ensures NewestFirst(NormHistory(h, NewIds(l)))
  {
    hide NewIds, IdOf;
    var k := NormHistory(h, NewIds(l));
    forall i, j | 0 <= i < j < |h| ensures Age(k[i].backup) < Age(k[j].backup) {
      IdsAreMonotone(l, h[i].backup, h[j].backup);
    }
  }

  lemma {:induction false} NormKeepsHistory(l: Ledger, policy: Policy, h: seq<Point>)
    requires ValidLedger(l) && AllReferenced(l, h) && HistoryOk(policy, h)
    ensures var k := NormHistory(h, NewIds(l)); HistoryOk(policy, k) && OnlyPast(k)
  {
    hide NewIds, IdOf, NewestFirst;
    NewestFirstAfter(l, h);
  }

  /** What a loaded node looks like when it was in order before it was written. */
  ghost predicate InOrder(env: Env, rule: Rule, n: Node) {
    Disciplined(n) && Shaped(n) && Plain(n) && Conforms(env, rule, n)
  }

  ghost predicate AllReady(env: Env, rule: Rule, ns: seq<Node>) {
    forall i :: 0 <= i < |ns| ==> Untouched(ns[i]) && InOrder(env, rule, ns[i])
  }

  lemma {:induction false} NormKeeps(env: Env, rule: Rule, l: Ledger, n: Node)
    requires ValidLedger(l) && Held(l, n) && !Wiped(n) && InOrder(env, rule, n)
    ensures var r := NormNode(n, NewIds(l)); Untouched(r) && InOrder(env, rule, r)
    decreases n, 0
  {
    hide NewIds, Untouched, NormNode, NormNodes, HistoryOk;
    NormAllKeep(env, RuleFor(env, rule, n.path).value, l, n.subs);
    NormLoads(env, rule, l, n);
    NormOrders(env, rule, l, n);
  }

  lemma {:induction false} NormLoads(env: Env, rule: Rule, l: Ledger, n: Node)
    requires ValidLedger(l) && AllReferenced(l, n.history) && !Wiped(n) && Disciplined(n) && RuleFor(env, rule, n.path).Some?
    requires AllReady(env, RuleFor(env, rule, n.path).value, NormNodes(n.subs, NewIds(l)))
    ensures Untouched(NormNode(n, NewIds(l)))
  {
    hide NewIds, RuleFor, InOrder;
    var r := NormNode(n, NewIds(l));
    NormKeepsHistory(l, n.policy, n.history);
    assert r.history[|n.history| - 1].state == NormState(n.history[|n.history| - 1].state);
    assert r.subs == NormNodes(n.subs, NewIds(l));
    forall i | 0 <= i < |r.subs| ensures Fresh(r.subs[i]) && Loaded(r.subs[i]) && Disciplined(r.subs[i]) {
      assert Untouched(r.subs[i]);
    }
  }

  lemma {:induction false} NormOrders(env: Env, rule: Rule, l: Ledger, n: Node)
    requires ValidLedger(l) && AllReferenced(l, n.history) && !Wiped(n) && InOrder(env, rule, n)
    requires AllReady(env, RuleFor(env, rule, n.path).value, NormNodes(n.subs, NewIds(l)))
    ensures InOrder(env, rule, NormNode(n, NewIds(l)))
  {
    hide NewIds, RuleFor, Untouched, HistoryOk;
    var r := NormNode(n, NewIds(l));
    NormKeepsHistory(l, n.policy, n.history);
    if AllWiped(n.subs) { NormOfWiped(n.subs, NewIds(l)); }
    if n.history != [] { assert r.history[0].state == NormState(n.history[0].state) && HeadState(n) == n.history[0].state; }
    assert r.subs == NormNodes(n.subs, NewIds(l));
    forall i | 0 <= i < |r.subs|
      ensures Disciplined(r.subs[i]) && Shaped(r.subs[i]) && Plain(r.subs[i]) && Conforms(env, RuleFor(env, rule, n.path).value, r.subs[i])
    {
      assert InOrder(env, RuleFor(env, rule, n.path).value, r.subs[i]);
    }
  }

  lemma {:induction false} NormOfWiped(ns: seq<Node>, ids: Ids)
    requires AllWiped(ns)
    ensures NormNodes(ns, ids) == []
  {
    if ns != [] { NormOfWiped(ns[1..], ids); }
  }

  lemma {:induction false} NormAllKeep(env: Env, rule: Rule, l: Ledger, ns: seq<Node>)
    requires ValidLedger(l) && AllHeld(l, ns) && forall i :: 0 <= i < |ns| ==> InOrder(env, rule, ns[i])
    ensures AllReady(env, rule, NormNodes(ns, NewIds(l)))
    decreases ns, 1
  {
    hide InOrder, Untouched, Held, NewIds, NormNode;
    if ns != [] {
      assert Held(l, ns[0]) && InOrder(env, rule, ns[0]);
      if !Wiped(ns[0]) { NormKeeps(env, rule, l, ns[0]); }
      NormAllKeep(env, rule, l, ns[1..]);
      assert NormNodes(ns, NewIds(l)) == NormNodes(ns[1..], NewIds(l)) + if Wiped(ns[0]) then [] else [NormNode(ns[0], NewIds(l))];
    }
  }

  lemma {:induction false} TallyConcat(a: seq<Node>, b: seq<Node>, c: Counter)
    ensures TallyAll(a + b, c) == TallyAll(a, c) + TallyAll(b, c)
  {
    if a == [] { assert a + b == b; } else {
      assert (a + b)[1..] == a[1..] + b;
      TallyConcat(a[1..], b, c);
    }
  }

  lemma {:induction false} EmittedConcat(a: seq<Node>, b: seq<Node>)
    ensures Emitted(a + b) == Emitted(a) + Emitted(b)
  {
    if a == [] { assert a + b == b; } else {
      assert (a + b)[1..] == a[1..] + b;
      EmittedConcat(a[1..], b);
    }
  }

  /** The loaded tree has as many nodes as were written. */
  lemma {:induction false} NormEmitted(ns: seq<Node>, ids: Ids)
    ensures Emitted(NormNodes(ns, ids)) == Emitted(ns)
    decreases ns
  {
    if ns != [] {
      var last := if Wiped(ns[0]) then [] else [NormNode(ns[0], ids)];
      EmittedConcat(NormNodes(ns[1..], ids), last);
      NormEmitted(ns[1..], ids);
      if !Wiped(ns[0]) {
        NormEmitted(ns[0].subs, ids);
        assert last[1..] == [];
      }
    }
  }

  predicate Foreign(l: Ledger, b: BackupRef) { b.Current? || b.index >= IdCount(l) }

  lemma {:induction false} ForeignPoints(l: Ledger, h: seq<Point>, b: BackupRef)
    requires ValidLedger(l) && AllReferenced(l, h) && Foreign(l, b)
    ensures CountRef(NormHistory(h, NewIds(l)), b) == 0
  {
    hide NewIds, IdOf;
    if h != [] {
      IdsAreMonotone(l, h[0].backup, h[0].backup);
      ForeignPoints(l, h[1..], b);
      assert NormHistory(h, NewIds(l))[1..] == NormHistory(h[1..], NewIds(l));
    }
  }

  /** A loaded tree refers only to the backups that were written with it. */
  lemma {:induction false} ForeignTally(l: Ledger, ns: seq<Node>, b: BackupRef)
    requires ValidLedger(l) && AllHeld(l, ns) && Foreign(l, b)
    ensures TallyAll(NormNodes(ns, NewIds(l)), Refs(b)) == 0
    decreases ns
  {
    hide NewIds;
    if ns != [] {
      assert Held(l, ns[0]);
      var last := if Wiped(ns[0]) then [] else [NormNode(ns[0], NewIds(l))];
      TallyConcat(NormNodes(ns[1..], NewIds(l)), last, Refs(b));
      ForeignTally(l, ns[1..], b);
      if !Wiped(ns[0]) {
        ForeignPoints(l, ns[0].history, b);
        ForeignTally(l, ns[0].subs, b);
        assert last[1..] == [];
      }
    }
  }

  /** The new ids fit, because every written point refers to a backup in the table. */
  lemma {:induction false} IdsFit(l: Ledger, ns: seq<Node>, parent: Bytes)
    requires ValidLedger(l) && AllHeld(l, ns) && FitsNodes(ns, parent, Ids(0, []), 1)
    ensures FitsNodes(ns, parent, NewIds(l), IdCount(l))
    decreases ns
  {
    hide NewIds;
    forall i | 0 <= i < |ns| && !Wiped(ns[i]) ensures FitsNode(ns[i], parent, NewIds(l), IdCount(l)) {
      assert Held(l, ns[i]) && FitsNode(ns[i], parent, Ids(0, []), 1);
      IdsFitHistory(l, ns[i].history);
      IdsFit(l, ns[i].subs, ns[i].path);
    }
  }

  lemma {:induction false} IdsFitHistory(l: Ledger, h: seq<Point>)
    requires ValidLedger(l) && AllReferenced(l, h) && FitsHistory(h, Ids(0, []), 1)
    ensures FitsHistory(h, NewIds(l), IdCount(l))
  {
    hide NewIds;
    forall i | 0 <= i < |h| ensures IdOf(NewIds(l), h[i].backup) < IdCount(l) {
      IdsAreMonotone(l, h[i].backup, h[i].backup);
    }
  }

  // ----- one run -----

  /** The tree that is written: in order, with every point referring to a backup that stays. */
  ghost predicate Written(env: Env, root: SearchNode, s: Repo, run: Run, blobs: Blobs, ns: seq<Node>) {
    && (forall i :: 0 <= i < |ns| ==> InOrder(env, RootRule(root), ns[i]))
    && AllHeld(LedgerAfter(env, root, s, run), ns)
    && AllReferenced(LedgerAfter(env, root, s, run), s.config)
    && CountAfter(env, root, s, run, Total) == Emitted(ns)
    && StoreOk(env, blobs) && AllStocked(blobs, ns, false)
  }

  lemma {:induction false} SearchedInOrder(env: Env, root: SearchNode, s: Repo, run: Run)
    requires Sound(env, root, s) && ProperRun(env, root, run)
    ensures var ns := Searched(env, root, s, run);
      && (forall i :: 0 <= i < |ns| ==> InOrder(env, RootRule(root), ns[i]) && AllFreshOk(env, ns[i], run.files))
      && CountAfter(env, root, s, run, Total) == Emitted(ns)
      && AllStocked(s.blobs, ns, true)
  {
    hide InitiateBackup, InitiateDelta, Stocked;
    NothingBlocked(env, RootRule(root), s.paths, run.found);
    EverythingTyped(env, RootRule(root), s.paths, run.found);
    PassKeepsDiscipline(env, s.paths, run.found, root);
    PassKeepsShape(env, s.paths, run.found, root);
    PathCountIsEmitted(env, s.paths, run.found, root);
    PassConforms(env, root, s.paths, run.found);
    PassPlain(env, root, s.paths, run.found);
    PassHashed(env, s.paths, run.found, root, run.files);
    PassStocked(env, root, s.blobs, s.paths, run.found);
  }

  lemma {:induction false} LedgerHolds(env: Env, root: SearchNode, s: Repo, run: Run, ns: seq<Node>)
    requires Sound(env, root, s) && ProperRun(env, root, run) && AllAlike(Searched(env, root, s, run), ns)
    ensures AllHeld(LedgerAfter(env, root, s, run), ns) && AllReferenced(LedgerAfter(env, root, s, run), s.config)
  {
    hide LedgerAfter, Searched, InLedger, Referenced;
    var l := LedgerAfter(env, root, s, run);
    forall b {:trigger InUse(l, b)} | TallyAll(ns, Refs(b)) > 0 || CountRef(s.config, b) > 0 ensures InUse(l, b) {
      LedgerIsRecount(env, root, s, run, b);
      AlikeTally(Searched(env, root, s, run), ns, Refs(b));
      CountMeansUse(l, b);
    }
    CountedIsHeld(l, ns);
    CountedHistory(l, s.config);
  }

  lemma {:induction false} CountMeansUse(l: Ledger, b: BackupRef)
    requires LedgerCount(l, b) > 0
    ensures InUse(l, b)
  {
  }

  lemma {:induction false} RunWrites(env: Env, root: SearchNode, s: Repo, run: Run)
    requires Sound(env, root, s) && ProperRun(env, root, run)
    requires FinishList(env, run.files, s.blobs, Searched(env, root, s, run)).Some?
    ensures var (blobs, ns) := FinishList(env, run.files, s.blobs, Searched(env, root, s, run)).value;
      Written(env, root, s, run, blobs, ns) && Extends(s.blobs, blobs) && AllAlike(Searched(env, root, s, run), ns)
  {
    hide Searched, LedgerAfter, StoreOk, CountAfter, Stocked;
    var before := Searched(env, root, s, run);
    SearchedInOrder(env, root, s, run);
    FinishListLaw(env, run.files, s.blobs, before);
    var (blobs, ns) := FinishList(env, run.files, s.blobs, before).value;
    forall i | 0 <= i < |ns| ensures Alike(before[i], ns[i]) && InOrder(env, RootRule(root), ns[i]) && Stocked(blobs, ns[i], false) {
      FinishedIsAlike(env, run.files, blobs, before[i], ns[i]);
      AlikeKeeps(env, RootRule(root), before[i], ns[i]);
      FinishedStocked(env, run.files, s.blobs, blobs, before[i], ns[i]);
    }
    AlikeEmitted(before, ns);
    LedgerHolds(env, root, s, run, ns);
  }

  lemma {:induction false} CollectKeeps(env: Env, blobs: Blobs, ns: seq<Node>)
    requires StoreOk(env, blobs) && AllStocked(blobs, ns, false)
    ensures var left := Collect(blobs, Preserved(ns));
      StoreOk(env, left) && AllStocked(left, ns, false)
  {
    hide FilePath;
    StillStocked(blobs, Collect(blobs, Preserved(ns)), ns);
  }

  /** What a run leaves behind. */
  lemma {:induction false} NextIs(env: Env, root: SearchNode, s: Repo, run: Run)
    requires Sound(env, root, s) && ProperRun(env, root, run) && Completes(env, root, s, run)
    ensures var l := LedgerAfter(env, root, s, run);
      var (blobs, ns) := FinishList(env, run.files, s.blobs, Searched(env, root, s, run)).value;
      && ValidLedger(l)
      && Next(env, root, s, run).Some?
      && var r := Next(env, root, s, run).value;
      && r.paths == NormNodes(ns, NewIds(l)) && r.config == NormHistory(s.config, NewIds(l))
      && r.times == NewTimes(l) && r.total == CountAfter(env, root, s, run, Total)
      && r.blobs == Collect(blobs, Preserved(ns))
      && |r.refs| == |r.times| && forall i :: 0 <= i < |r.refs| ==> r.refs[i] == PointCount(r, Past(i))
  {
    hide FitsNodes, StoreOk, EncImage, Load, NewIds, CountAfter, NewTimes, Searched, AllHeld, FinishList;
    RunWrites(env, root, s, run);
    var l := LedgerAfter(env, root, s, run);
    var (blobs, ns) := FinishList(env, run.files, s.blobs, Searched(env, root, s, run)).value;
    var total := CountAfter(env, root, s, run, Total);
    IdsFit(l, ns, []);
    IdsFitHistory(l, s.config);
    TableIsSmall(l);
    var m := Image(NewTimes(l), s.config, total, ns);
    LoadOfWritten(m, NewIds(l));
  }

  lemma {:induction false} TableIsSmall(l: Ledger)
    requires ValidLedger(l)
    ensures IdCount(l) <= |l.pastRefs| + 1
  {
  }

  /** Between runs with one config everything stays in order: counters equal recounts, the path count
      is the number of nodes, histories are well formed, every stored file that metadata refers to is
      there, and the metadata can be loaded again. */
  lemma {:induction false} RunKeepsSound(env: Env, root: SearchNode, s: Repo, run: Run)
    requires Sound(env, root, s) && ProperRun(env, root, run) && Completes(env, root, s, run)
    ensures Next(env, root, s, run).Some? && Sound(env, root, Next(env, root, s, run).value)
  {
    hide FinishList, Searched, LedgerAfter, CountAfter, NewIds, NewTimes, Next, StoreOk, Collect, Stocked, ProperRun, FitsNodes, FitsHistory, InOrder, Untouched;
    NextIs(env, root, s, run);
    RunWrites(env, root, s, run);
    var l := LedgerAfter(env, root, s, run);
    var (blobs, ns) := FinishList(env, run.files, s.blobs, Searched(env, root, s, run)).value;
    var r := Next(env, root, s, run).value;
    LoadedInOrder(env, root, l, ns, r.paths);
    CollectKeeps(env, blobs, ns);
    NormStocked(r.blobs, ns, NewIds(l));
    LoadedCounts(l, s.config, ns, r);
  }

  lemma {:induction false} LoadedInOrder(env: Env, root: SearchNode, l: Ledger, ns: seq<Node>, rs: seq<Node>)
    requires ValidLedger(l) && AllHeld(l, ns) && rs == NormNodes(ns, NewIds(l))
    requires forall i :: 0 <= i < |ns| ==> InOrder(env, RootRule(root), ns[i])
    ensures AllUntouched(rs) && (forall i :: 0 <= i < |rs| ==> Shaped(rs[i]))
    ensures AllPlain(rs) && AllConform(env, RootRule(root), rs) && Emitted(rs) == Emitted(ns)
  {
    hide NewIds, Shaped, Plain, Conforms, Untouched, Disciplined, Held;
    NormAllKeep(env, RootRule(root), l, ns);
    NormEmitted(ns, NewIds(l));
    forall i | 0 <= i < |rs| ensures Untouched(rs[i]) && Shaped(rs[i]) && Plain(rs[i]) && Conforms(env, RootRule(root), rs[i]) {
      assert InOrder(env, RootRule(root), rs[i]);
    }
  }

  lemma {:induction false} LoadedCounts(l: Ledger, config: seq<Point>, ns: seq<Node>, r: Repo)
    requires ValidLedger(l) && AllHeld(l, ns) && AllReferenced(l, config)
    requires r.paths == NormNodes(ns, NewIds(l)) && r.config == NormHistory(config, NewIds(l))
    requires |r.refs| == |r.times| == IdCount(l) && forall i :: 0 <= i < |r.refs| ==> r.refs[i] == PointCount(r, Past(i))
    ensures CountsRight(r)
  {
    hide NewIds, Held, AllReferenced;
    forall b ensures PointCount(r, b) == if b.Past? && b.index < |r.refs| then r.refs[b.index] else 0 {
      if Foreign(l, b) {
        ForeignTally(l, ns, b);
        ForeignPoints(l, config, b);
      }
    }
  }
}
