/** A backup that is cut short by a crash of the system either happened or did not: what a crash can
    leave on the disk, and which repository the next run finds there. */
module Atomicity {
  import opened Data
  import opened Metadata
  import opened Backup
  import opened RepoPath
  import opened BlobStore
  import opened Codec
  import opened CodecRoundTrip
  import opened Renumber
  import opened GarbageCollector
  import opened Stock
  import opened FixedConfig
  import opened Runs
  import C = CrashSafety
  import opened Durable

  // ----- what a crash can leave -----

  /** The place of a stored file, and that of a directory of stored files. */
  predicate SlotShape(q: C.Path) { C.Slot(q) && |q[1]| == 2 && |q[2]| > 0 }

  predicate FolderShape(q: C.Path) { |q| > 0 && |q[0]| == 1 && (|q| == 1 || (|q| == 2 && |q[1]| == 2)) }

  lemma {:induction false} SlotIsShelved(q: C.Path)
    requires SlotShape(q)
    ensures Shelved(PathText(q)) && Elements(PathText(q)) == q
  {
    assert q[1..] == [q[1], q[2]] && q[1..][1..] == [q[2]];
    assert PathText(q[1..]) == q[1] + [SLASH] + PathText([q[2]]) && PathText([q[2]]) == q[2];
    var p := q[0] + [SLASH] + (q[1] + [SLASH] + q[2]);
    assert PathText(q) == p;
    assert p[..1] == q[0] && p[2..4] == q[1] && p[5..] == q[2];
  }

  lemma {:induction false} ElementsShape(p: Bytes)
    requires Shelved(p)
    ensures SlotShape(Elements(p)) && PathText(Elements(p)) == p
  {
    TextOfElements(p);
  }

  /** A content of the size and hash that a path says. */
  ghost predicate Suits(env: Env, p: Bytes, c: Bytes) {
    |c| <= SIZE_MAX && forall h: Hash, n: U64, t: Byte {:trigger FilePath(h, n, t)} :: FilePath(h, n, t) == p ==> |c| == n && env.digest(c) == h
  }

  /** What may be found at a path: complete stored files, directories where they belong, and the
      metadata of one of the given contents. */
  ghost predicate Allowed(env: Env, metas: set<Bytes>, absent: bool, q: C.Path, v: Option<C.Item>) {
    if q == C.META then (if v.None? then absent else v.value.Plain? && v.value.synced && v.value.content in metas)
    else v.Some? ==>
      && (SlotShape(q) ==> v.value.Plain? && v.value.synced && Suits(env, PathText(q), v.value.content))
      && (FolderShape(q) ==> v.value == C.Folder)
  }

  ghost predicate Possible(m: C.Media, q: C.Path, v: Option<C.Item>) { v == C.At(m.live, q) || (q in m.loose && v in m.loose[q]) }

  ghost predicate Tame(env: Env, metas: set<Bytes>, absent: bool, m: C.Media) {
    forall q, v :: Possible(m, q, v) ==> Allowed(env, metas, absent, q, v)
  }

  ghost predicate AllTame(env: Env, metas: set<Bytes>, absent: bool, m: C.Media, ops: seq<C.Op>)
    decreases |ops|
  {
    Tame(env, metas, absent, m) && (ops == [] || AllTame(env, metas, absent, C.Apply(m, ops[0]), ops[1..]))
  }

  /** A step that puts only what is allowed. */
  ghost predicate Fine(env: Env, metas: set<Bytes>, absent: bool, m: C.Media, op: C.Op) {
    match op
    case MakeDir(p) => p != C.META && !SlotShape(p)
    case RenameTmp(p) => Allowed(env, metas, absent, p, C.At(m.live, C.TMP))
    case Delete(p) => p != C.META
    case _ => true
  }

  lemma {:induction false} StepIsTame(env: Env, metas: set<Bytes>, absent: bool, m: C.Media, op: C.Op)
    requires Tame(env, metas, absent, m) && Fine(env, metas, absent, m, op)
    ensures Tame(env, metas, absent, C.Apply(m, op))
  {
    hide Suits, PathText;
    C.MetaIsNotTmp();
    var r := C.Apply(m, op);
    forall q, v | Possible(r, q, v) ensures Allowed(env, metas, absent, q, v) {
      if q != C.TMP {
        assert Possible(m, q, C.At(m.live, q));
        if Possible(m, q, v) {}
      }
    }
  }

  lemma {:induction false} AllTameConcat(env: Env, metas: set<Bytes>, absent: bool, m: C.Media, a: seq<C.Op>, b: seq<C.Op>)
    requires AllTame(env, metas, absent, m, a) && AllTame(env, metas, absent, C.Run(m, a), b)
    ensures AllTame(env, metas, absent, m, a + b)
    decreases |a|
  {
    hide Tame;
    if a == [] {
      assert a + b == b;
    } else {
      assert (a + b)[1..] == a[1..] + b;
      AllTameConcat(env, metas, absent, C.Apply(m, a[0]), a[1..], b);
    }
  }

  lemma {:induction false} AllTameMeans(env: Env, metas: set<Bytes>, absent: bool, m: C.Media, ops: seq<C.Op>, k: nat)
    requires AllTame(env, metas, absent, m, ops) && k <= |ops|
    ensures Tame(env, metas, absent, C.Run(m, ops[..k]))
    decreases |ops|
  {
    hide Tame;
    if k > 0 {
      assert ops[..k][1..] == ops[1..][..k - 1];
      AllTameMeans(env, metas, absent, C.Apply(m, ops[0]), ops[1..], k - 1);
    }
  }

  /** Steps each of which is fine in the state it meets. */
  ghost predicate AllFine(env: Env, metas: set<Bytes>, absent: bool, m: C.Media, ops: seq<C.Op>)
    decreases |ops|
  {
    ops == [] || (Fine(env, metas, absent, m, ops[0]) && AllFine(env, metas, absent, C.Apply(m, ops[0]), ops[1..]))
  }

  lemma {:induction false} FineIsTame(env: Env, metas: set<Bytes>, absent: bool, m: C.Media, ops: seq<C.Op>)
    requires Tame(env, metas, absent, m) && AllFine(env, metas, absent, m, ops)
    ensures AllTame(env, metas, absent, m, ops)
    decreases |ops|
  {
    hide Tame, Fine;
    if ops != [] {
      StepIsTame(env, metas, absent, m, ops[0]);
      FineIsTame(env, metas, absent, C.Apply(m, ops[0]), ops[1..]);
    }
  }

  lemma {:induction false} AllFineConcat(env: Env, metas: set<Bytes>, absent: bool, m: C.Media, a: seq<C.Op>, b: seq<C.Op>)
    requires AllFine(env, metas, absent, m, a) && AllFine(env, metas, absent, C.Run(m, a), b)
    ensures AllFine(env, metas, absent, m, a + b)
    decreases |a|
  {
    hide Fine;
    if a == [] {
      assert a + b == b;
    } else {
      assert (a + b)[1..] == a[1..] + b;
      AllFineConcat(env, metas, absent, C.Apply(m, a[0]), a[1..], b);
    }
  }

  /** Steps that are fine in any state. */
  predicate Quiet(op: C.Op) {
    match op
    case MakeDir(p) => p != C.META && !SlotShape(p)
    case RenameTmp(p) => false
    case Delete(p) => p != C.META
    case _ => true
  }

  lemma {:induction false} PlainIsFine(env: Env, metas: set<Bytes>, absent: bool, m: C.Media, ops: seq<C.Op>)
    requires forall i :: 0 <= i < |ops| ==> Quiet(ops[i])
    ensures AllFine(env, metas, absent, m, ops)
    decreases |ops|
  {
    hide C.Apply;
    if ops != [] {
      assert Quiet(ops[0]);
      PlainIsFine(env, metas, absent, C.Apply(m, ops[0]), ops[1..]);
    }
  }

  lemma {:induction false} RenameIsFine(env: Env, metas: set<Bytes>, absent: bool, m: C.Media, p: C.Path, rest: seq<C.Op>)
    requires Allowed(env, metas, absent, p, C.At(m.live, C.TMP)) && forall i :: 0 <= i < |rest| ==> Quiet(rest[i])
    ensures AllFine(env, metas, absent, m, [C.RenameTmp(p)] + rest)
  {
    hide Allowed, C.Apply;
    var ops := [C.RenameTmp(p)] + rest;
    assert ops[1..] == rest;
    PlainIsFine(env, metas, absent, C.Apply(m, ops[0]), rest);
  }

  lemma {:induction false} BlobIsFine(env: Env, metas: set<Bytes>, absent: bool, m: C.Media, p: C.Path, c: Bytes)
    requires C.Slot(p) && C.Placeable(m.live, p) && Allowed(env, metas, absent, p, Some(C.Plain(c, true)))
    ensures AllFine(env, metas, absent, m, C.BlobOps(m.live, p, c))
  {
    hide C.Apply, C.Run, C.AllHarmless, C.Settled, Allowed, AllFine, C.Placeable;
    var a, b, d := [C.WriteTmp(c), C.FlushTmp], C.DirOps(m.live, p), [C.RenameTmp(p), C.SyncDir(p[..2]), C.SyncDir([])];
    C.SlotIsElsewhere(p);
    C.TmpWritten(m, c);
    var m1 := C.Run(m, a);
    assert C.DirOps(m1.live, p) == b;
    assert C.Placeable(m1.live, p) by { PlaceableWithTmp(m.live, m1.live, p, c); }
    C.DirsMade(m1, p);
    var m2 := C.Run(m1, b);
    PlainIsFine(env, metas, absent, m, a);
    PlainIsFine(env, metas, absent, m1, b);
    assert d == [C.RenameTmp(p)] + [C.SyncDir(p[..2]), C.SyncDir([])];
    RenameIsFine(env, metas, absent, m2, p, [C.SyncDir(p[..2]), C.SyncDir([])]);
    C.RunConcat(m, a, b);
    AllFineConcat(env, metas, absent, m, a, b);
    AllFineConcat(env, metas, absent, m, a + b, d);
    assert C.BlobOps(m.live, p, c) == a + b + d;
  }

  lemma {:induction false} PlaceableWithTmp(live: map<C.Path, C.Item>, after: map<C.Path, C.Item>, p: C.Path, c: Bytes)
    requires C.Slot(p) && C.Placeable(live, p) && after == live[C.TMP := C.Plain(c, true)]
    ensures C.Placeable(after, p)
  {
    C.SlotIsElsewhere(p);
  }

  lemma {:induction false} MetaIsFine(env: Env, metas: set<Bytes>, absent: bool, m: C.Media, meta: Bytes)
    requires meta in metas
    ensures AllFine(env, metas, absent, m, C.MetaOps(meta))
  {
    hide C.Apply, C.Run, C.AllHarmless, C.Settled, AllFine;
    var a := [C.WriteTmp(meta), C.FlushTmp];
    C.TmpWritten(m, meta);
    PlainIsFine(env, metas, absent, m, a);
    RenameIsFine(env, metas, absent, C.Run(m, a), C.META, [C.SyncDir([])]);
    AllFineConcat(env, metas, absent, m, a, [C.RenameTmp(C.META)] + [C.SyncDir([])]);
    assert C.MetaOps(meta) == a + ([C.RenameTmp(C.META)] + [C.SyncDir([])]);
  }

  lemma {:induction false} DeletesAreFine(env: Env, metas: set<Bytes>, absent: bool, m: C.Media, dels: seq<C.Path>)
    requires C.META !in dels
    ensures AllFine(env, metas, absent, m, C.DeleteOps(dels))
    decreases |dels|
  {
    hide C.Apply;
    if dels != [] {
      DeletesAreFine(env, metas, absent, C.Apply(m, C.Delete(dels[0])), dels[1..]);
      assert C.DeleteOps(dels)[1..] == C.DeleteOps(dels[1..]);
    }
  }

  /** Whatever a crash during the program may leave is allowed. */
  lemma {:induction false} ProgramIsFine(env: Env, metas: set<Bytes>, absent: bool, m: C.Media, writes: seq<C.Blob>, meta: Bytes, dels: seq<C.Path>)
    requires C.AllPlaceable(m.live, writes) && meta in metas && C.META !in dels
    requires forall i :: 0 <= i < |writes| ==> Allowed(env, metas, absent, writes[i].path, Some(C.Plain(writes[i].content, true)))
    ensures AllFine(env, metas, absent, m, C.Program(m, writes, meta, dels))
    decreases |writes|
  {
    hide AllFine, Allowed, C.Run, C.BlobOps, C.MetaOps, C.DeleteOps, C.Settled, C.AllHarmless, C.Placeable;
    if writes == [] {
      MetaIsFine(env, metas, absent, m, meta);
      DeletesAreFine(env, metas, absent, C.Run(m, C.MetaOps(meta)), dels);
      AllFineConcat(env, metas, absent, m, C.MetaOps(meta), C.DeleteOps(dels));
    } else {
      var b := writes[0];
      var ops := C.BlobOps(m.live, b.path, b.content);
      C.BlobStored(m, b.path, b.content);
      var m1 := C.Run(m, ops);
      BlobIsFine(env, metas, absent, m, b.path, b.content);
      PlaceableRest(m, m1, writes);
      ProgramIsFine(env, metas, absent, m1, writes[1..], meta, dels);
      AllFineConcat(env, metas, absent, m, ops, C.Program(m1, writes[1..], meta, dels));
    }
  }

  // ----- a backup happens or it does not -----

  predicate NoMeta(m: C.Media) { C.META !in m.live }

  predicate HoldsMeta(m: C.Media, meta: Bytes) {
    C.META in m.live && m.live[C.META].Plain? && m.live[C.META].content == meta
  }

  /** A repository on the disk, for which a crash can leave nothing improper either. */
  ghost predicate Resting(env: Env, s: Repo, m: C.Media) {
    OnDisk(s, m) && Tame(env, C.Current(m), NoMeta(m), m)
  }

  lemma {:induction false} RestingIsOnDisk(env: Env, s: Repo, m: C.Media)
    requires Resting(env, s, m)
    ensures OnDisk(s, m)
  {
    hide OnDisk, Tame;
  }

  lemma {:induction false} NothingIsResting(env: Env)
    ensures Resting(env, Blank, C.Media(map[], map[]))
  {
    C.MetaIsNotTmp();
  }

  lemma {:induction false} StoredSuits(env: Env, blobs: Blobs, p: Bytes)
    requires StoreOk(env, blobs) && p in blobs
    ensures Suits(env, p, blobs[p])
  {
    hide FilePath;
  }

  lemma {:induction false} TameWithMore(env: Env, a: set<Bytes>, b: set<Bytes>, absent: bool, m: C.Media)
    requires Tame(env, a, absent, m) && a <= b
    ensures Tame(env, b, absent, m)
  {
    hide Suits, PathText, Possible;
    forall q, v | Possible(m, q, v) ensures Allowed(env, b, absent, q, v) { assert Allowed(env, a, absent, q, v); }
  }

  /** In every state of the program a crash leaves only complete stored files, directories where they
      belong, and the old or the new metadata. */
  lemma {:induction false} RunIsTame(env: Env, s: Repo, m: C.Media, blobs: Blobs, writes: seq<C.Blob>, meta: Bytes, dels: seq<C.Path>, k: nat)
    requires Resting(env, s, m) && StoreOk(env, blobs) && Difference(s.blobs, blobs, writes) && C.META !in dels
    requires forall i :: 0 <= i < |writes| ==> C.Slot(writes[i].path)
    requires k <= |C.Program(m, writes, meta, dels)|
    ensures Tame(env, C.Current(m) + {meta}, NoMeta(m), C.Run(m, C.Program(m, writes, meta, dels)[..k]))
  {
    hide StoreOk, Suits, PathText, Tame, C.Program, C.Run, C.Placeable, Elements, Shelved, AllFine, Mirrors, Tidy, C.Settled;
    var metas, absent := C.Current(m) + {meta}, NoMeta(m);
    DifferenceIsPlaceable(m, s.blobs, blobs, writes);
    forall i | 0 <= i < |writes| ensures Allowed(env, metas, absent, writes[i].path, Some(C.Plain(writes[i].content, true))) {
      assert Stores(s.blobs, blobs, writes[i]);
      var p :| Shelved(p) && writes[i].path == Elements(p) && p in blobs && blobs[p] == writes[i].content;
      ElementsShape(p);
      StoredSuits(env, blobs, p);
      C.SlotIsElsewhere(Elements(p));
    }
    TameWithMore(env, C.Current(m), metas, absent, m);
    ProgramIsFine(env, metas, absent, m, writes, meta, dels);
    FineIsTame(env, metas, absent, m, C.Program(m, writes, meta, dels));
    AllTameMeans(env, metas, absent, m, C.Program(m, writes, meta, dels), k);
  }

  lemma {:induction false} TameWithOne(env: Env, metas: set<Bytes>, absent: bool, m: C.Media, meta: Bytes)
    requires Tame(env, metas, absent, m) && C.META !in m.loose && C.At(m.live, C.META) == Some(C.Plain(meta, true))
    ensures Tame(env, {meta}, false, m)
  {
    hide Suits, PathText;
    forall q, v | Possible(m, q, v) ensures Allowed(env, {meta}, false, q, v) { assert Allowed(env, metas, absent, q, v); }
  }

  /** A complete run ends with its result on the disk. */
  lemma {:induction false} RunEndsResting(env: Env, root: SearchNode, s: Repo, run: Run, m: C.Media, blobs: Blobs, ns: seq<Node>, writes: seq<C.Blob>, meta: Bytes, dels: seq<C.Path>)
    requires Sound(env, root, s) && ProperRun(env, root, run) && Completes(env, root, s, run) && Resting(env, s, m)
    requires RunParts(env, root, s, run, blobs, ns, writes, meta)
    requires forall i :: 0 <= i < |writes| ==> C.Slot(writes[i].path)
    requires PostOrder(Committed(m, writes, meta), dels, Preserved(ns)) && Thorough(blobs, dels, Preserved(ns))
    ensures Next(env, root, s, run).Some? && Sound(env, root, Next(env, root, s, run).value)
    ensures Resting(env, Next(env, root, s, run).value, C.Run(m, C.Program(m, writes, meta, dels)))
  {
    hide Sound, ProperRun, Completes, RunParts, Next, Says, Difference, C.Run, C.Program, PathText, PostOrder, Tidy, Mirrors, Thorough, Tame, StoreOk;
    RunKeepsSound(env, root, s, run);
    PartsFit(env, root, s, run, blobs, ns, writes, meta);
    PartsAreOk(env, root, s, run, blobs, ns, writes, meta);
    RunEndsOnDisk(env, root, s, run, m, blobs, ns, writes, meta, dels);
    MetaStays(m, s, blobs, writes, meta, dels, Preserved(ns), ns);
    var ops := C.Program(m, writes, meta, dels);
    assert ops[..|ops|] == ops;
    RunIsTame(env, s, m, blobs, writes, meta, dels, |ops|);
    var r := C.Run(m, ops);
    MetaIsSettled(r);
    TameWithOne(env, C.Current(m) + {meta}, NoMeta(m), r, meta);
    assert C.Current(r) == {meta};
  }

  lemma {:induction false} PartsAreOk(env: Env, root: SearchNode, s: Repo, run: Run, blobs: Blobs, ns: seq<Node>, writes: seq<C.Blob>, meta: Bytes)
    requires Sound(env, root, s) && ProperRun(env, root, run) && Completes(env, root, s, run)
    requires RunParts(env, root, s, run, blobs, ns, writes, meta)
    ensures StoreOk(env, blobs)
  {
    hide FinishList, Searched, CountAfter, StoreOk, Stocked, FitsNodes, EncImage, NewIds, NewTimes, InOrder, AllHeld;
    RunWrites(env, root, s, run);
  }

  lemma {:induction false} MetaStays(m: C.Media, s: Repo, blobs: Blobs, writes: seq<C.Blob>, meta: Bytes, dels: seq<C.Path>, keep: set<Bytes>, ns: seq<Node>)
    requires OnDisk(s, m) && Difference(s.blobs, blobs, writes) && keep == Preserved(ns)
    requires forall i :: 0 <= i < |writes| ==> C.Slot(writes[i].path)
    requires PostOrder(Committed(m, writes, meta), dels, keep)
    ensures C.META !in dels
    ensures C.At(C.Run(m, C.Program(m, writes, meta, dels)).live, C.META) == Some(C.Plain(meta, true))
  {
    hide Difference, C.Run, C.Program, PathText, PostOrder, Tidy, Mirrors, Committed, Says;
    CommittedMirrors(m, s.blobs, blobs, writes, meta);
    EndOfProgram(m, writes, meta, dels);
    var c := Committed(m, writes, meta);
    MetaIsPreserved(ns);
    if C.META in dels { PostOrderMembers(c, dels, keep, C.META); }
    DeletedLive(c, dels);
    assert C.At(C.Run(c, C.DeleteOps(dels)).live, C.META) == C.At(c.live, C.META);
  }

  /** Whatever metadata a crash leaves is the old or the new one, complete, and can be loaded. There is none
      only if there was none before. */
  lemma {:induction false} SurvivorIsOldOrNew(env: Env, root: SearchNode, s: Repo, run: Run, m: C.Media, blobs: Blobs, ns: seq<Node>, writes: seq<C.Blob>, meta: Bytes, dels: seq<C.Path>, k: nat, raw: map<C.Path, C.Item>)
    requires Sound(env, root, s) && ProperRun(env, root, run) && Completes(env, root, s, run) && Resting(env, s, m)
    requires RunParts(env, root, s, run, blobs, ns, writes, meta)
    requires forall i :: 0 <= i < |writes| ==> C.Slot(writes[i].path)
    requires PostOrder(Committed(m, writes, meta), dels, Preserved(ns))
    requires k <= |C.Program(m, writes, meta, dels)|
    requires C.Survives(C.Run(m, C.Program(m, writes, meta, dels)[..k]), raw)
    ensures C.META in raw ==> raw[C.META].Plain? && raw[C.META].synced && Load(raw[C.META].content).Some?
    ensures C.META in raw ==> raw[C.META].content == meta || HoldsMeta(m, raw[C.META].content)
    ensures C.META !in raw ==> NoMeta(m)
    ensures Next(env, root, s, run).Some? && Says(meta, Next(env, root, s, run).value)
    ensures forall c :: HoldsMeta(m, c) ==> Says(c, s)
  {
    hide Sound, ProperRun, Completes, RunParts, Next, Difference, C.Settled, C.Run, C.Program, PathText, PostOrder, Tidy, Mirrors, Committed, Tame, StoreOk, Load, Suits;
    PartsFit(env, root, s, run, blobs, ns, writes, meta);
    PartsAreOk(env, root, s, run, blobs, ns, writes, meta);
    MetaStays(m, s, blobs, writes, meta, dels, Preserved(ns), ns);
    RunIsTame(env, s, m, blobs, writes, meta, dels, k);
    var at, metas := C.Run(m, C.Program(m, writes, meta, dels)[..k]), C.Current(m) + {meta};
    var v := C.At(raw, C.META);
    assert Possible(at, C.META, v) by { assert C.At(raw, C.META) == C.At(at.live, C.META) || (C.META in at.loose && C.At(raw, C.META) in at.loose[C.META]); }
    TameMeans(env, metas, NoMeta(m), at, C.META, v);
  }

  lemma {:induction false} TameMeans(env: Env, metas: set<Bytes>, absent: bool, m: C.Media, q: C.Path, v: Option<C.Item>)
    requires Tame(env, metas, absent, m) && Possible(m, q, v)
    ensures Allowed(env, metas, absent, q, v)
  {
    hide Allowed, Possible;
  }

  // ----- after a crash -----

  /** The stored files that a disk holds. */
  function Shelf(live: map<C.Path, C.Item>): Blobs {
    map p | p in (set q | q in live && SlotShape(q) && live[q].Plain? :: PathText(q)) ::
      if Shelved(p) && Elements(p) in live && live[Elements(p)].Plain? && |live[Elements(p)].content| <= SIZE_MAX
      then live[Elements(p)].content else []
  }

  lemma {:induction false} ShelfMeans(live: map<C.Path, C.Item>, p: Bytes)
    requires forall q :: q in live && SlotShape(q) ==> live[q].Plain? && |live[q].content| <= SIZE_MAX
    requires Shelved(p)
    ensures p in Shelf(live) <==> Elements(p) in live
    ensures p in Shelf(live) ==> live[Elements(p)].Plain? && Shelf(live)[p] == live[Elements(p)].content
  {
    hide Shelved, Elements, PathText, SlotShape;
    ElementsShape(p);
    if p in Shelf(live) {
      var q :| q in live && SlotShape(q) && live[q].Plain? && PathText(q) == p;
      SlotIsShelved(q);
    }
  }

  /** The value that a rebooted system shows is one that was possible before, if that is complete. */
  lemma {:induction false} RebootedValue(env: Env, metas: set<Bytes>, absent: bool, m: C.Media, raw: map<C.Path, C.Item>, r: C.Media, q: C.Path)
    requires Tame(env, metas, absent, m) && C.Survives(m, raw) && C.Rebooted(raw, r)
    requires SlotShape(q) || FolderShape(q) || q == C.META
    ensures Allowed(env, metas, absent, q, C.At(raw, q))
    ensures q in r.live ==> C.Reached(raw, q) && q in raw && r.live[q] == raw[q]
    ensures q == C.META && q !in r.live ==> C.At(raw, q) == None
  {
    hide Suits, PathText;
    assert Possible(m, q, C.At(raw, q)) by {
      assert C.At(raw, q) == C.At(m.live, q) || (q in m.loose && C.At(raw, q) in m.loose[q]);
    }
    assert Allowed(env, metas, absent, q, C.At(raw, q));
    if q != C.META { FolderIsNotMeta(q); }
    if q in r.live {
      assert C.At(r.live, q).Some? && C.Reached(raw, q);
      assert C.At(raw, q) == Some(raw[q]);
    }
    if q == C.META {
      MetaIsReached(raw);
      assert C.At(r.live, q).Some? <==> q in r.live;
    }
  }

  lemma {:induction false} MetaIsReached(raw: map<C.Path, C.Item>)
    ensures C.Reached(raw, C.META) <==> C.META in raw
  {
  }

  /** A rebooted disk is in order. */
  lemma {:induction false} RebootedIsTidy(env: Env, metas: set<Bytes>, absent: bool, m: C.Media, raw: map<C.Path, C.Item>, r: C.Media)
    requires Tame(env, metas, absent, m) && C.Survives(m, raw) && C.Rebooted(raw, r)
    ensures Tidy(r.live)
    ensures forall q :: q in r.live && SlotShape(q) ==>
      r.live[q].Plain? && r.live[q].synced && Suits(env, PathText(q), r.live[q].content) && C.Reached(raw, q)
    ensures if C.META in r.live then r.live[C.META].Plain? && r.live[C.META].synced && r.live[C.META].content in metas else absent
  {
    hide Suits, PathText, Tame, C.Survives, C.Rebooted, C.Reached;
    forall q | q in r.live && FolderShape(q) ensures r.live[q] == C.Folder {
      FolderIsNotMeta(q);
      RebootedValue(env, metas, absent, m, raw, r, q);
    }
    forall q | q in r.live && SlotShape(q)
      ensures r.live[q].Plain? && r.live[q].synced && Suits(env, PathText(q), r.live[q].content) && C.Reached(raw, q)
    {
      FolderIsNotMeta(q);
      RebootedValue(env, metas, absent, m, raw, r, q);
    }
    RebootedValue(env, metas, absent, m, raw, r, C.META);
  }

  lemma {:induction false} FolderIsNotMeta(q: C.Path)
    requires FolderShape(q) || SlotShape(q)
    ensures q != C.META
  {
  }

  lemma {:induction false} RebootedMirrors(env: Env, metas: set<Bytes>, absent: bool, m: C.Media, raw: map<C.Path, C.Item>, r: C.Media)
    requires Tame(env, metas, absent, m) && C.Survives(m, raw) && C.Rebooted(raw, r)
    ensures Mirrors(r.live, Shelf(r.live)) && StoreOk(env, Shelf(r.live))
  {
    hide PathText, Tame, C.Survives, C.Rebooted, SlotShape, Elements, Shelved, FilePath, Shelf, Tidy;
    RebootedIsTidy(env, metas, absent, m, raw, r);
    forall q | q in r.live && SlotShape(q) ensures r.live[q].Plain? && |r.live[q].content| <= SIZE_MAX {
      assert Suits(env, PathText(q), r.live[q].content);
    }
    var shelf := Shelf(r.live);
    forall p | Shelved(p)
      ensures p in shelf ==> C.Readable(r.live, Elements(p), shelf[p])
      ensures Elements(p) in r.live ==> p in shelf
      ensures p in shelf ==> Suits(env, p, shelf[p])
    {
      ShelfMeans(r.live, p);
      ElementsShape(p);
      if p in shelf { ReachedFolders(raw, r, Elements(p)); }
    }
    forall h: Hash, n: U64, t: Byte | FilePath(h, n, t) in shelf
      ensures |shelf[FilePath(h, n, t)]| == n && env.digest(shelf[FilePath(h, n, t)]) == h
    {
      FilePathIsShelved(h, n, t);
      assert Suits(env, FilePath(h, n, t), shelf[FilePath(h, n, t)]);
    }
  }

  lemma {:induction false} ReachedFolders(raw: map<C.Path, C.Item>, r: C.Media, q: C.Path)
    requires C.Rebooted(raw, r) && C.Reached(raw, q) && C.Slot(q)
    ensures C.At(r.live, q[..1]) == Some(C.Folder) && C.At(r.live, q[..2]) == Some(C.Folder)
  {
    assert C.At(raw, q[..1]) == Some(C.Folder) && C.At(raw, q[..2]) == Some(C.Folder);
    assert forall k :: 0 < k < 2 ==> q[..2][..k] == q[..k];
    assert C.Reached(raw, q[..1]) && C.Reached(raw, q[..2]);
    assert C.At(r.live, q[..1]) == C.At(r.live, q[..1]) && C.At(r.live, q[..2]) == C.At(r.live, q[..2]);
  }

  lemma {:induction false} RebootedIsTame(env: Env, metas: set<Bytes>, absent: bool, m: C.Media, raw: map<C.Path, C.Item>, r: C.Media)
    requires Tame(env, metas, absent, m) && C.Survives(m, raw) && C.Rebooted(raw, r)
    ensures Tame(env, C.Current(r), NoMeta(r), r)
  {
    hide PathText, Tame, C.Survives, SlotShape, Tidy, Suits, C.Reached;
    RebootedIsTidy(env, metas, absent, m, raw, r);
    var current, none := C.Current(r), NoMeta(r);
    forall q, v | Possible(r, q, v) ensures Allowed(env, current, none, q, v) {
      assert v == C.At(r.live, q);
      if v.Some? && FolderShape(q) { assert r.live[q] == C.Folder by { hide FolderShape; FolderAt(r.live, q); } }
    }
    TameFromAll(env, current, none, r);
  }

  lemma {:induction false} FolderAt(live: map<C.Path, C.Item>, q: C.Path)
    requires Tidy(live) && q in live && FolderShape(q)
    ensures live[q] == C.Folder
  {
  }

  lemma {:induction false} TameFromAll(env: Env, metas: set<Bytes>, absent: bool, m: C.Media)
    requires forall q, v :: Possible(m, q, v) ==> Allowed(env, metas, absent, q, v)
    ensures Tame(env, metas, absent, m)
  {
    hide Allowed, Possible;
  }

  // ----- atomicity -----

  lemma {:induction false} SoundWith(env: Env, root: SearchNode, s: Repo, blobs: Blobs)
    requires Sound(env, root, s) && StoreOk(env, blobs) && forall p :: p in ReferencedPaths(s.paths) ==> p in blobs
    ensures Sound(env, root, s.(blobs := blobs))
  {
    hide StoreOk, Stocked, ReferencedPaths;
    StillStocked(s.blobs, blobs, s.paths);
    assert forall b :: PointCount(s.(blobs := blobs), b) == PointCount(s, b);
  }

  /** What the metadata on a clean disk needs is on the shelf. */
  lemma {:induction false} NeedsAreShelved(m: C.Media, blobs: Blobs, paths: seq<Node>)
    requires C.Clean(NeedsOf(blobs), m) && Mirrors(m.live, Shelf(m.live))
    requires C.META in m.live && m.live[C.META].Plain? && Load(m.live[C.META].content).Some?
    requires Load(m.live[C.META].content).value.paths == paths && ReferencedPaths(paths) <= blobs.Keys
    ensures forall p :: p in ReferencedPaths(paths) ==> p in Shelf(m.live) && p in blobs && Shelf(m.live)[p] == blobs[p]
  {
    hide Load, Shelved, Elements, PathText, Shelf, C.Settled, ReferencedPaths;
    var meta := m.live[C.META].content;
    assert meta in C.Current(m);
    ReferencedAreShelved(paths);
    forall p | p in ReferencedPaths(paths) ensures p in Shelf(m.live) && p in blobs && Shelf(m.live)[p] == blobs[p] {
      assert p in blobs.Keys;
      TextOfElements(p);
      assert Elements(p) in NeedsOf(blobs)(meta);
      assert C.Kept(m, Elements(p), blobs[p]);
    }
  }

  lemma {:induction false} CrashedIsOnDisk(m: C.Media, needs: C.Needs, s: Repo)
    requires C.Clean(needs, m) && Tidy(m.live) && Mirrors(m.live, s.blobs)
    requires if C.META in m.live then m.live[C.META].Plain? && m.live[C.META].synced && Says(m.live[C.META].content, s)
             else C.META !in m.loose && s == Blank.(blobs := s.blobs)
    ensures OnDisk(s, m)
  {
    hide Tidy, Mirrors, C.Settled, Says;
  }

  /** A backup that is cut short by a crash of the system either happened or did not. Whatever the disk
      holds when the system is up again, the next run finds the repository from before the run or the one
      from after it, sound, with every stored file it refers to; besides those there may be stored files
      that nothing refers to. */
  lemma {:induction false} CrashIsAtomic(env: Env, root: SearchNode, s: Repo, run: Run, m: C.Media, blobs: Blobs, ns: seq<Node>, writes: seq<C.Blob>, meta: Bytes, dels: seq<C.Path>, k: nat, raw: map<C.Path, C.Item>, r: C.Media)
    returns (t: Repo)
    requires Sound(env, root, s) && ProperRun(env, root, run) && Completes(env, root, s, run) && Resting(env, s, m)
    requires RunParts(env, root, s, run, blobs, ns, writes, meta)
    requires forall i :: 0 <= i < |writes| ==> C.Slot(writes[i].path)
    requires PostOrder(Committed(m, writes, meta), dels, Preserved(ns))
    requires k <= |C.Program(m, writes, meta, dels)|
    requires C.Survives(C.Run(m, C.Program(m, writes, meta, dels)[..k]), raw) && C.Rebooted(raw, r)
    ensures HoldsMeta(r, meta) ==> Next(env, root, s, run).Some? && t == Next(env, root, s, run).value.(blobs := t.blobs)
    ensures !HoldsMeta(r, meta) ==> t == s.(blobs := t.blobs)
    ensures t.blobs == Shelf(r.live)
    ensures Sound(env, root, t) && Resting(env, t, r)
    ensures forall p :: p in ReferencedPaths(t.paths) ==> p in t.blobs && p in blobs && t.blobs[p] == blobs[p]
  {
    hide Sound, ProperRun, Completes, RunParts, Next, Difference, C.Inv, C.Settled, C.Safe, C.Run, C.Program, C.Survives, C.Rebooted;
    hide PathText, PostOrder, Tidy, Mirrors, Committed, Tame, StoreOk, ReferencedPaths, Shelf, Load, NeedsOf, C.Clean;
    PartsFit(env, root, s, run, blobs, ns, writes, meta);
    PartsAreOk(env, root, s, run, blobs, ns, writes, meta);
    RunKeepsSound(env, root, s, run);
    RunIsCrashSafe(env, root, s, run, m, blobs, ns, writes, meta, dels, k);
    MetaStays(m, s, blobs, writes, meta, dels, Preserved(ns), ns);
    RunIsTame(env, s, m, blobs, writes, meta, dels, k);
    var at := C.Run(m, C.Program(m, writes, meta, dels)[..k]);
    var metas := C.Current(m) + {meta};
    C.CrashLeavesClean(NeedsOf(blobs), at, raw, r);
    RebootedIsTidy(env, metas, NoMeta(m), at, raw, r);
    RebootedMirrors(env, metas, NoMeta(m), at, raw, r);
    RebootedIsTame(env, metas, NoMeta(m), at, raw, r);
    DifferenceExtends(s.blobs, blobs, writes);
    var shelf := Shelf(r.live);
    if HoldsMeta(r, meta) {
      var next := Next(env, root, s, run).value;
      t := next.(blobs := shelf);
      NeedsAreShelved(r, blobs, next.paths);
      SoundWith(env, root, next, shelf);
    } else {
      t := s.(blobs := shelf);
      if C.META in r.live {
        assert s.blobs.Keys <= blobs.Keys;
        NeedsAreShelved(r, blobs, s.paths);
      } else {
        assert ReferencedPaths(s.paths) == {} by { NothingReferenced(s.paths); }
        assert C.META !in r.loose by { NothingLoose(raw, r); }
      }
      SoundWith(env, root, s, shelf);
    }
    if C.META !in r.live { NothingLoose(raw, r); }
    CrashedIsOnDisk(r, NeedsOf(blobs), t);
  }

  lemma {:induction false} NothingReferenced(ns: seq<Node>)
    requires ns == []
    ensures ReferencedPaths(ns) == {}
  {
  }

  lemma {:induction false} NothingLoose(raw: map<C.Path, C.Item>, r: C.Media)
    requires C.Rebooted(raw, r)
    ensures C.META !in r.loose
  {
  }
}
