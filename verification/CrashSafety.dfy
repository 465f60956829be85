/** The order of the durable steps of a backup (src/repository.c:340-389, src/nb.c:304-307) against
    crashes of the system, and of the process alone. */
module CrashSafety {
  import opened Data

  /** A path inside the repository, by its elements; the repository itself is []. */
  type Path = seq<Bytes>

  /** The path of a stored file: one digit, two digits, and the rest of its name. */
  predicate Slot(p: Path) { |p| == 3 && |p[0]| == 1 }

  datatype Item = Folder | Plain(content: Bytes, synced: bool)

  const META: Path := [[109, 101, 116, 97, 100, 97, 116, 97]]
  const TMP: Path := [[116, 109, 112, 45, 102, 105, 108, 101]]

  /** What a running system sees, and for every directory entry that was changed since its directory
      was synced the other values it may turn out to have after a crash. */
  datatype Media = Media(live: map<Path, Item>, loose: map<Path, set<Option<Item>>>)

  function At(items: map<Path, Item>, p: Path): Option<Item> { if p in items then Some(items[p]) else None }

  function Parent(p: Path): Path
    requires p != []
  {
    p[..|p| - 1]
  }

  // ----- atomic steps -----

  datatype Op = WriteTmp(content: Bytes) | FlushTmp | MakeDir(path: Path) | SyncDir(path: Path) | RenameTmp(path: Path) | Delete(path: Path)

  function Put(m: Media, p: Path, v: Option<Item>): Media {
    Media(if v.Some? then m.live[p := v.value] else m.live - {p},
          m.loose[p := (if p in m.loose then m.loose[p] else {}) + {At(m.live, p)}])
  }

  function Flushed(i: Item): Item { if i.Plain? then i.(synced := true) else i }

  function Apply(m: Media, op: Op): Media {
    match op
    case WriteTmp(c) => Put(m, TMP, Some(Plain(c, false)))
    case FlushTmp => if TMP in m.live then m.(live := m.live[TMP := Flushed(m.live[TMP])]) else m
    case MakeDir(p) => Put(m, p, Some(Folder))
    case SyncDir(d) => m.(loose := map q | q in m.loose && !(q != [] && Parent(q) == d) :: m.loose[q])
    case RenameTmp(p) => Put(Put(m, p, At(m.live, TMP)), TMP, None)
    case Delete(p) => Put(m, p, None)
  }

  function Run(m: Media, ops: seq<Op>): Media
    decreases |ops|
  {
    if ops == [] then m else Run(Apply(m, ops[0]), ops[1..])
  }

  // ----- the program -----

  /** repoWriterClose() for a stored file, after its content was written to the temporary file. */
  function BlobOps(live: map<Path, Item>, p: Path, c: Bytes): seq<Op>
    requires Slot(p)
  {
    [WriteTmp(c), FlushTmp]
    + (if p[..2] in live then [] else
         (if p[..1] in live then [] else [MakeDir(p[..1]), SyncDir([])]) + [MakeDir(p[..2]), SyncDir(p[..1])])
    + [RenameTmp(p), SyncDir(p[..2]), SyncDir([])]
  }

  /** repoWriterClose() in raw mode, for the metadata. */
  function MetaOps(c: Bytes): seq<Op> { [WriteTmp(c), FlushTmp, RenameTmp(META), SyncDir([])] }

  function DeleteOps(dels: seq<Path>): seq<Op> {
    if dels == [] then [] else [Delete(dels[0])] + DeleteOps(dels[1..])
  }

  datatype Blob = Blob(path: Path, content: Bytes)

  /** A backup: stores the new files that are not there yet, commits the metadata, then collects. */
  function Program(m: Media, writes: seq<Blob>, meta: Bytes, dels: seq<Path>): seq<Op>
    requires forall i :: 0 <= i < |writes| ==> Slot(writes[i].path)
    decreases |writes|
  {
    if writes == [] then MetaOps(meta) + DeleteOps(dels)
    else
      var ops := BlobOps(m.live, writes[0].path, writes[0].content);
      ops + Program(Run(m, ops), writes[1..], meta, dels)
  }

  // ----- crashes -----

  /** A possible content of the disk after a crash: every entry has its last value, or one of the
      values it had since its directory was synced. */
  ghost predicate Survives(m: Media, raw: map<Path, Item>) {
    forall p {:trigger At(raw, p)} :: At(raw, p) == At(m.live, p) || (p in m.loose && At(raw, p) in m.loose[p])
  }

  /** A stored file that can be found, with the right bytes. */
  predicate Readable(raw: map<Path, Item>, p: Path, c: Bytes) {
    Slot(p) && At(raw, p[..1]) == Some(Folder) && At(raw, p[..2]) == Some(Folder) && At(raw, p) == Some(Plain(c, true))
  }

  /** The stored files that a metadata file refers to. */
  type Needs = Bytes -> map<Path, Bytes>

  /** If there is metadata, it is complete and everything it refers to is there. The temporary file
      can be overwritten. */
  ghost predicate Dependable(needs: Needs, raw: map<Path, Item>) {
    && (META in raw ==>
      && raw[META].Plain? && raw[META].synced
      && forall p :: p in needs(raw[META].content) ==> Readable(raw, p, needs(raw[META].content)[p]))
    && NoFolder(At(raw, TMP))
  }

  predicate NoFolder(v: Option<Item>) { v.Some? ==> v.value.Plain? }

  ghost predicate Safe(needs: Needs, m: Media) { forall raw: map<Path, Item> {:trigger Survives(m, raw)} :: Survives(m, raw) ==> Dependable(needs, raw) }

  /** Whenever the system crashes while the steps are executed, what is left is dependable. */
  ghost predicate AllSafe(needs: Needs, m: Media, ops: seq<Op>)
    decreases |ops|
  {
    Safe(needs, m) && (ops == [] || AllSafe(needs, Apply(m, ops[0]), ops[1..]))
  }

  // ----- the invariant -----

  /** A stored file that every crash leaves alone. */
  predicate Kept(m: Media, p: Path, c: Bytes) {
    Readable(m.live, p, c) && p[..1] !in m.loose && p[..2] !in m.loose && p !in m.loose
  }

  predicate PossibleMeta(metas: set<Bytes>, v: Option<Item>) {
    v == None || (v.value.Plain? && v.value.synced && v.value.content in metas)
  }

  ghost predicate AllKept(needs: Needs, m: Media, meta: Bytes) {
    forall p :: p in needs(meta) ==> Kept(m, p, needs(meta)[p])
  }

  /** Whichever metadata may be found after a crash is one of the given, and what it needs is kept. */
  ghost predicate Inv(needs: Needs, m: Media, metas: set<Bytes>) {
    && PossibleMeta(metas, At(m.live, META))
    && (META in m.loose ==> forall v :: v in m.loose[META] ==> PossibleMeta(metas, v))
    && NoFolder(At(m.live, TMP)) && (TMP in m.loose ==> forall v :: v in m.loose[TMP] ==> NoFolder(v))
    && (forall meta :: meta in metas ==> AllKept(needs, m, meta))
  }

  lemma {:induction false} InvIsSafe(needs: Needs, m: Media, metas: set<Bytes>)
    requires Inv(needs, m, metas)
    ensures Safe(needs, m)
  {
    forall raw: map<Path, Item> {:trigger Survives(m, raw)} | Survives(m, raw) ensures Dependable(needs, raw) {
      if META in raw {
        assert At(raw, META) == Some(raw[META]);
        var meta := raw[META].content;
        forall p | p in needs(meta) ensures Readable(raw, p, needs(meta)[p]) {
          assert Kept(m, p, needs(meta)[p]);
          assert At(raw, p[..1]) == At(m.live, p[..1]) && At(raw, p[..2]) == At(m.live, p[..2]) && At(raw, p) == At(m.live, p);
        }
      }
    }
  }

  /** A step that removes nothing and does not replace the metadata. */
  predicate Harmless(m: Media, op: Op) {
    match op
    case MakeDir(p) => p !in m.live && p != META && p != TMP
    case RenameTmp(p) => p !in m.live && p != META && p != TMP
    case Delete(p) => false
    case _ => true
  }

  lemma {:induction false} SlotIsElsewhere(p: Path)
    requires Slot(p)
    ensures p != TMP && p[..2] != TMP && p[..1] != TMP && p != META && p[..2] != META && p[..1] != META
  {
    assert p[..1][0] == p[0] && TMP[0] != p[0] && META[0] != p[0];
  }

  lemma {:induction false} KeptThroughStep(m: Media, op: Op, p: Path, c: Bytes)
    requires Kept(m, p, c) && (Harmless(m, op) || op == RenameTmp(META))
    ensures Kept(Apply(m, op), p, c)
  {
    SlotIsElsewhere(p);
  }

  lemma {:induction false} StepKeepsInv(needs: Needs, m: Media, op: Op, metas: set<Bytes>)
    requires Inv(needs, m, metas) && Harmless(m, op)
    ensures Inv(needs, Apply(m, op), metas)
  {
    hide Kept;
    assert TMP != META by { assert |TMP[0]| == 8 && TMP[0][0] != META[0][0]; }
    forall meta | meta in metas ensures AllKept(needs, Apply(m, op), meta) {
      forall p | p in needs(meta) ensures Kept(Apply(m, op), p, needs(meta)[p]) {
        assert AllKept(needs, m, meta);
        KeptThroughStep(m, op, p, needs(meta)[p]);
      }
    }
  }

  /** Steps that are harmless one after the other. */
  predicate AllHarmless(m: Media, ops: seq<Op>)
    decreases |ops|
  {
    ops == [] || (Harmless(m, ops[0]) && AllHarmless(Apply(m, ops[0]), ops[1..]))
  }

  lemma {:induction false} StepsKeepInv(needs: Needs, m: Media, ops: seq<Op>, metas: set<Bytes>)
    requires Inv(needs, m, metas) && AllHarmless(m, ops)
    ensures AllSafe(needs, m, ops) && Inv(needs, Run(m, ops), metas)
    decreases |ops|
  {
    hide Inv, Harmless, Apply;
    InvIsSafe(needs, m, metas);
    if ops != [] {
      StepKeepsInv(needs, m, ops[0], metas);
      StepsKeepInv(needs, Apply(m, ops[0]), ops[1..], metas);
    }
  }

  lemma {:induction false} RunConcat(m: Media, a: seq<Op>, b: seq<Op>)
    ensures Run(m, a + b) == Run(Run(m, a), b)
    decreases |a|
  {
    hide Apply;
    if a == [] { assert a + b == b; } else {
      assert (a + b)[1..] == a[1..] + b;
      RunConcat(Apply(m, a[0]), a[1..], b);
    }
  }

  lemma {:induction false} AllSafeConcat(needs: Needs, m: Media, a: seq<Op>, b: seq<Op>)
    requires AllSafe(needs, m, a) && AllSafe(needs, Run(m, a), b)
    ensures AllSafe(needs, m, a + b)
    decreases |a|
  {
    hide Apply, Safe;
    if a == [] { assert a + b == b; } else {
      assert (a + b)[1..] == a[1..] + b;
      AllSafeConcat(needs, Apply(m, a[0]), a[1..], b);
    }
  }

  lemma {:induction false} AllHarmlessConcat(m: Media, a: seq<Op>, b: seq<Op>)
    requires AllHarmless(m, a) && AllHarmless(Run(m, a), b)
    ensures AllHarmless(m, a + b)
    decreases |a|
  {
    hide Apply, Harmless;
    if a == [] { assert a + b == b; } else {
      assert (a + b)[1..] == a[1..] + b;
      AllHarmlessConcat(Apply(m, a[0]), a[1..], b);
    }
  }

  lemma {:induction false} AllSafeMeans(needs: Needs, m: Media, ops: seq<Op>, k: nat)
    requires AllSafe(needs, m, ops) && k <= |ops|
    ensures Safe(needs, Run(m, ops[..k]))
    decreases |ops|
  {
    hide Apply, Safe;
    if k > 0 {
      assert ops[..k][1..] == ops[1..][..k - 1];
      AllSafeMeans(needs, Apply(m, ops[0]), ops[1..], k - 1);
    }
  }

  // ----- storing one file -----

  /** Everything that exists is on the disk, except for the temporary file; directories hold what is
      in them. */
  ghost predicate Settled(m: Media) {
    && (forall p :: p in m.live && p != TMP ==> p !in m.loose)
    && (forall p :: p in m.live && |p| > 1 ==> At(m.live, p[..|p| - 1]) == Some(Folder))
    && (TMP in m.live ==> m.live[TMP].Plain?) && (META in m.live ==> m.live[META].Plain?)
  }

  lemma {:induction false} Run2(m: Media, a: Op, b: Op)
    ensures Run(m, [a, b]) == Apply(Apply(m, a), b)
    ensures AllHarmless(m, [a, b]) <==> Harmless(m, a) && Harmless(Apply(m, a), b)
  {
    hide Apply, Harmless;
    assert [a, b][1..] == [b] && [b][1..] == [];
    assert Run(Apply(m, a), [b]) == Apply(Apply(m, a), b);
    assert AllHarmless(Apply(m, a), [b]) == Harmless(Apply(m, a), b);
  }

  lemma {:induction false} Run3(m: Media, a: Op, b: Op, c: Op)
    ensures Run(m, [a, b, c]) == Apply(Apply(Apply(m, a), b), c)
    ensures AllHarmless(m, [a, b, c]) <==> Harmless(m, a) && Harmless(Apply(m, a), b) && Harmless(Apply(Apply(m, a), b), c)
  {
    hide Apply, Harmless;
    assert [a, b, c][1..] == [b, c];
    Run2(Apply(m, a), b, c);
  }

  lemma {:induction false} TmpWritten(m: Media, c: Bytes)
    ensures var r := Run(m, [WriteTmp(c), FlushTmp]);
      && r.live == m.live[TMP := Plain(c, true)] && r.loose.Keys <= m.loose.Keys + {TMP}
      && (Settled(m) ==> Settled(r)) && AllHarmless(m, [WriteTmp(c), FlushTmp])
  {
    Run2(m, WriteTmp(c), FlushTmp);
  }

  lemma {:induction false} DirMade(m: Media, d: Path)
    requires d != [] && d !in m.live && d != META && d != TMP
    requires |d| > 1 ==> At(m.live, Parent(d)) == Some(Folder)
    ensures var r := Run(m, [MakeDir(d), SyncDir(Parent(d))]);
      && r.live == m.live[d := Folder] && d !in r.loose && r.loose.Keys <= m.loose.Keys
      && (Settled(m) ==> Settled(r)) && AllHarmless(m, [MakeDir(d), SyncDir(Parent(d))])
  {
    Run2(m, MakeDir(d), SyncDir(Parent(d)));
  }

  lemma {:induction false} TmpRenamed(m: Media, p: Path, c: Bytes)
    requires Slot(p) && p !in m.live && At(m.live, p[..2]) == Some(Folder) && At(m.live, TMP) == Some(Plain(c, true))
    ensures var ops := [RenameTmp(p), SyncDir(p[..2]), SyncDir([])];
      var r := Run(m, ops);
      && r.live == m.live[p := Plain(c, true)] - {TMP}
      && p !in r.loose && p[..1] !in r.loose && r.loose.Keys <= m.loose.Keys
      && (Settled(m) ==> Settled(r)) && AllHarmless(m, ops)
  {
    SlotIsElsewhere(p);
    Run3(m, RenameTmp(p), SyncDir(p[..2]), SyncDir([]));
    var m1 := Apply(m, RenameTmp(p));
    assert m1.live == m.live[p := Plain(c, true)] - {TMP};
    var r := Apply(Apply(m1, SyncDir(p[..2])), SyncDir([]));
    assert Parent(p) == p[..2] && Parent(p[..1]) == [] && Parent(TMP) == [];
    if Settled(m) {
      forall q | q in r.live && q != TMP ensures q !in r.loose {}
      forall q | q in r.live && |q| > 1 ensures At(r.live, q[..|q| - 1]) == Some(Folder) {
        if q == p { assert q[..|q| - 1] == p[..2]; } else { assert At(m.live, q[..|q| - 1]) == Some(Folder); }
      }
    }
  }

  function DirOps(live: map<Path, Item>, p: Path): seq<Op>
    requires Slot(p)
  {
    if p[..2] in live then []
    else (if p[..1] in live then [] else [MakeDir(p[..1]), SyncDir([])]) + [MakeDir(p[..2]), SyncDir(p[..1])]
  }

  /** The directories of a stored file exist afterwards; a new one is on the disk. */
  lemma {:induction false} DirsMade(m: Media, p: Path)
    requires Slot(p) && Placeable(m.live, p)
    ensures var r := Run(m, DirOps(m.live, p));
      && r.live == m.live[p[..1] := Folder][p[..2] := Folder]
      && (p[..2] !in m.live ==> p[..2] !in r.loose) && r.loose.Keys <= m.loose.Keys
      && (Settled(m) ==> Settled(r)) && AllHarmless(m, DirOps(m.live, p))
  {
    SlotIsElsewhere(p);
    assert p[..2][..1] == p[..1];
    if p[..2] in m.live {
      assert m.live[p[..1] := Folder][p[..2] := Folder] == m.live;
    } else {
      var first := if p[..1] in m.live then [] else [MakeDir(p[..1]), SyncDir([])];
      if p[..1] !in m.live {
        assert Parent(p[..1]) == [];
        DirMade(m, p[..1]);
      }
      var m1 := Run(m, first);
      assert m1.live == m.live[p[..1] := Folder] && AllHarmless(m, first);
      assert Parent(p[..2]) == p[..1];
      DirMade(m1, p[..2]);
      RunConcat(m, first, [MakeDir(p[..2]), SyncDir(p[..1])]);
      AllHarmlessConcat(m, first, [MakeDir(p[..2]), SyncDir(p[..1])]);
    }
  }

  /** Where a stored file belongs there is room for it: directories on the way, if anything. */
  predicate Placeable(live: map<Path, Item>, p: Path)
    requires Slot(p)
  {
    && p !in live
    && (p[..1] in live ==> live[p[..1]] == Folder)
    && (p[..2] in live ==> live[p[..2]] == Folder && p[..1] in live)
  }

  /** Storing a file is harmless step by step. Afterwards it is there; its own entry, those of the
      directories that were made for it, and that of its top directory are on the disk. */
  lemma {:induction false} BlobStored(m: Media, p: Path, c: Bytes)
    requires Slot(p) && Placeable(m.live, p)
    ensures var r := Run(m, BlobOps(m.live, p, c));
      && r.live == m.live[p[..1] := Folder][p[..2] := Folder][p := Plain(c, true)] - {TMP}
      && p !in r.loose && p[..1] !in r.loose && (p[..2] !in m.live ==> p[..2] !in r.loose)
      && (Settled(m) ==> Settled(r) && Kept(r, p, c)) && AllHarmless(m, BlobOps(m.live, p, c))
  {
    hide Apply, Run, AllHarmless, Settled;
    var a, b, d := [WriteTmp(c), FlushTmp], DirOps(m.live, p), [RenameTmp(p), SyncDir(p[..2]), SyncDir([])];
    SlotIsElsewhere(p);
    TmpWritten(m, c);
    var m1 := Run(m, a);
    assert DirOps(m1.live, p) == b;
    DirsMade(m1, p);
    var m2 := Run(m1, b);
    TmpRenamed(m2, p, c);
    RunConcat(m, a, b);
    RunConcat(m, a + b, d);
    AllHarmlessConcat(m, a, b);
    AllHarmlessConcat(m, a + b, d);
    assert BlobOps(m.live, p, c) == a + b + d;
    if Settled(m) { KeptWhenSettled(Run(m2, d), p, c); }
  }

  lemma {:induction false} KeptWhenSettled(m: Media, p: Path, c: Bytes)
    requires Settled(m) && Readable(m.live, p, c)
    ensures Kept(m, p, c)
  {
    SlotIsElsewhere(p);
  }

  // ----- committing the metadata -----

  lemma {:induction false} Run4(m: Media, a: Op, b: Op, c: Op, d: Op)
    ensures Run(m, [a, b, c, d]) == Apply(Apply(Apply(Apply(m, a), b), c), d)
  {
    hide Apply;
    assert [a, b, c, d][1..] == [b, c, d];
    Run3(Apply(m, a), b, c, d);
  }

  lemma {:induction false} Safe1(needs: Needs, m: Media, op: Op)
    requires Safe(needs, m) && Safe(needs, Apply(m, op))
    ensures AllSafe(needs, m, [op]) && Run(m, [op]) == Apply(m, op)
  {
    hide Safe, Apply;
    assert [op][1..] == [];
    assert AllSafe(needs, Apply(m, op), []);
  }

  /** The rename makes the new metadata possible, in addition to the old. */
  lemma {:induction false} RenamedMeta(needs: Needs, m: Media, metas: set<Bytes>, meta: Bytes)
    requires Inv(needs, m, metas) && AllKept(needs, m, meta) && At(m.live, TMP) == Some(Plain(meta, true))
    ensures Inv(needs, Apply(m, RenameTmp(META)), metas + {meta})
  {
    hide Kept;
    assert TMP != META by { assert TMP[0][0] != META[0][0]; }
    var r := Apply(m, RenameTmp(META));
    forall x | x in metas + {meta} ensures AllKept(needs, r, x) {
      forall p | p in needs(x) ensures Kept(r, p, needs(x)[p]) {
        assert AllKept(needs, m, x);
        KeptThroughStep(m, RenameTmp(META), p, needs(x)[p]);
      }
    }
  }

  /** Once the repository is synced only the new metadata is left. */
  lemma {:induction false} SyncedMeta(needs: Needs, m: Media, metas: set<Bytes>, meta: Bytes)
    requires Inv(needs, m, metas) && At(m.live, META) == Some(Plain(meta, true)) && meta in metas
    ensures Inv(needs, Apply(m, SyncDir([])), {meta})
  {
    hide Kept;
    assert Parent(META) == [];
    var r := Apply(m, SyncDir([]));
    forall p | p in needs(meta) ensures Kept(r, p, needs(meta)[p]) {
      assert AllKept(needs, m, meta);
      KeptThroughStep(m, SyncDir([]), p, needs(meta)[p]);
    }
  }

  lemma {:induction false} MetaStored(m: Media, meta: Bytes)
    ensures var r := Run(m, MetaOps(meta));
      && r.live == m.live[META := Plain(meta, true)] - {TMP}
      && META !in r.loose && (forall q :: |q| == 1 ==> q !in r.loose) && r.loose.Keys <= m.loose.Keys
      && (Settled(m) ==> Settled(r))
  {
    hide Settled, Apply;
    TmpWritten(m, meta);
    var m1 := Run(m, [WriteTmp(meta), FlushTmp]);
    MetaRenamed(m1, meta);
    Run4(m, WriteTmp(meta), FlushTmp, RenameTmp(META), SyncDir([]));
    Run2(m, WriteTmp(meta), FlushTmp);
    Run2(m1, RenameTmp(META), SyncDir([]));
  }

  lemma {:induction false} MetaRenamed(m: Media, meta: Bytes)
    requires At(m.live, TMP) == Some(Plain(meta, true))
    ensures var r := Apply(Apply(m, RenameTmp(META)), SyncDir([]));
      && r.live == m.live[META := Plain(meta, true)] - {TMP}
      && (forall q :: |q| == 1 ==> q !in r.loose) && r.loose.Keys <= m.loose.Keys
      && (Settled(m) ==> Settled(r))
  {
    assert TMP != META by { assert TMP[0][0] != META[0][0]; }
    assert forall q: Path :: |q| == 1 ==> q != [] && q[..|q| - 1] == [];
    var r1 := Apply(m, RenameTmp(META));
    var r := Apply(r1, SyncDir([]));
    assert r1.loose.Keys == m.loose.Keys + {META, TMP};
    assert forall q :: q in r.loose ==> q in r1.loose && |q| != 1;
    assert r1.live == m.live[META := Plain(meta, true)] - {TMP};
    if Settled(m) {
      forall q | q in r.live && |q| > 1 ensures At(r.live, q[..|q| - 1]) == Some(Folder) {
        assert At(m.live, q[..|q| - 1]) == Some(Folder);
        assert q[..|q| - 1] != META && q[..|q| - 1] != TMP;
      }
    }
  }


  lemma {:induction false} CommitIsSafe(needs: Needs, m: Media, metas: set<Bytes>, meta: Bytes)
    requires Inv(needs, m, metas) && AllKept(needs, m, meta)
    ensures AllSafe(needs, m, MetaOps(meta)) && Inv(needs, Run(m, MetaOps(meta)), {meta})
  {
    hide Safe, Inv, Kept, Apply, AllKept;
    var a := [WriteTmp(meta), FlushTmp];
    Run2(m, WriteTmp(meta), FlushTmp);
    TmpWritten(m, meta);
    StepsKeepInv(needs, m, a, metas);
    var m1 := Run(m, a);
    KeptForCommit(needs, m, meta);
    RenamedMeta(needs, m1, metas, meta);
    var m2 := Apply(m1, RenameTmp(META));
    MetaIsLive(m1, meta);
    SyncedMeta(needs, m2, metas + {meta}, meta);
    var m3 := Apply(m2, SyncDir([]));
    InvIsSafe(needs, m1, metas);
    InvIsSafe(needs, m2, metas + {meta});
    InvIsSafe(needs, m3, {meta});
    Safe1(needs, m1, RenameTmp(META));
    Safe1(needs, m2, SyncDir([]));
    AllSafeConcat(needs, m1, [RenameTmp(META)], [SyncDir([])]);
    AllSafeConcat(needs, m, a, [RenameTmp(META)] + [SyncDir([])]);
    Run4(m, WriteTmp(meta), FlushTmp, RenameTmp(META), SyncDir([]));
    assert MetaOps(meta) == a + ([RenameTmp(META)] + [SyncDir([])]);
  }

  lemma {:induction false} MetaIsLive(m: Media, meta: Bytes)
    requires At(m.live, TMP) == Some(Plain(meta, true))
    ensures At(Apply(m, RenameTmp(META)).live, META) == Some(Plain(meta, true))
  {
    assert TMP != META by { assert TMP[0][0] != META[0][0]; }
  }

  lemma {:induction false} KeptForCommit(needs: Needs, m: Media, meta: Bytes)
    requires AllKept(needs, m, meta)
    ensures AllKept(needs, Run(m, [WriteTmp(meta), FlushTmp]), meta)
  {
    hide Kept;
    Run2(m, WriteTmp(meta), FlushTmp);
    forall p | p in needs(meta) ensures Kept(Apply(Apply(m, WriteTmp(meta)), FlushTmp), p, needs(meta)[p]) {
      KeptThroughStep(m, WriteTmp(meta), p, needs(meta)[p]);
      KeptThroughStep(Apply(m, WriteTmp(meta)), FlushTmp, p, needs(meta)[p]);
    }
  }

  // ----- collecting garbage -----

  predicate IsUsed(p: Path, q: Path) { |p| == 3 && (q == p || q == p[..2] || q == p[..1]) }

  /** Only what the metadata does not need is deleted, and directories only when they are empty. */
  predicate Deletable(needs: Needs, m: Media, meta: Bytes, dels: seq<Path>)
    decreases |dels|
  {
    dels == [] ||
    (&& dels[0] != META
     && (forall p :: p in needs(meta) ==> !IsUsed(p, dels[0]))
     && (forall q :: q in m.live && |q| > 1 ==> q[..|q| - 1] != dels[0])
     && Deletable(needs, Apply(m, Delete(dels[0])), meta, dels[1..]))
  }

  lemma {:induction false} KeptThroughDelete(m: Media, d: Path, p: Path, c: Bytes)
    requires Kept(m, p, c) && !IsUsed(p, d)
    ensures Kept(Apply(m, Delete(d)), p, c)
  {
  }

  lemma {:induction false} SettledThroughDelete(m: Media, d: Path)
    requires Settled(m) && forall q :: q in m.live && |q| > 1 ==> q[..|q| - 1] != d
    ensures Settled(Apply(m, Delete(d)))
  {
  }

  lemma {:induction false} DeletedOne(needs: Needs, m: Media, meta: Bytes, d: Path)
    requires Inv(needs, m, {meta}) && d != META && forall p :: p in needs(meta) ==> !IsUsed(p, d)
    ensures var r := Apply(m, Delete(d)); Inv(needs, r, {meta}) && At(r.live, META) == At(m.live, META)
  {
    hide Kept, IsUsed;
    var r := Apply(m, Delete(d));
    forall p | p in needs(meta) ensures Kept(r, p, needs(meta)[p]) {
      assert AllKept(needs, m, meta);
      KeptThroughDelete(m, d, p, needs(meta)[p]);
    }
  }

  lemma {:induction false} CollectIsSafe(needs: Needs, m: Media, meta: Bytes, dels: seq<Path>)
    requires Inv(needs, m, {meta}) && Settled(m) && Deletable(needs, m, meta, dels)
    ensures AllSafe(needs, m, DeleteOps(dels))
    ensures var r := Run(m, DeleteOps(dels)); Inv(needs, r, {meta}) && Settled(r) && At(r.live, META) == At(m.live, META)
    decreases |dels|
  {
    hide Inv, Settled, Apply, Safe;
    InvIsSafe(needs, m, {meta});
    if dels != [] {
      DeletedOne(needs, m, meta, dels[0]);
      SettledThroughDelete(m, dels[0]);
      CollectIsSafe(needs, Apply(m, Delete(dels[0])), meta, dels[1..]);
      assert DeleteOps(dels)[1..] == DeleteOps(dels[1..]);
    }
  }

  // ----- the whole program -----

  /** The metadata that is on the disk, if any. */
  function Current(m: Media): set<Bytes> { if META in m.live && m.live[META].Plain? then {m.live[META].content} else {} }

  /** Where a process may start: everything on the disk, and the metadata is dependable. */
  ghost predicate Clean(needs: Needs, m: Media) { Settled(m) && Inv(needs, m, Current(m)) }

  /** The files to write: each has a place and none is there yet. */
  predicate AllPlaceable(live: map<Path, Item>, writes: seq<Blob>) {
    && (forall i :: 0 <= i < |writes| ==> Slot(writes[i].path) && Placeable(live, writes[i].path))
    && (forall i, j :: 0 <= i < j < |writes| ==> writes[i].path != writes[j].path)
  }

  /** What the new metadata needs was found in the repository, or is written. */
  predicate Supplied(needs: Needs, live: map<Path, Item>, writes: seq<Blob>, meta: Bytes) {
    forall p :: p in needs(meta) ==> Readable(live, p, needs(meta)[p]) || Blob(p, needs(meta)[p]) in writes
  }

  function AfterWrites(m: Media, writes: seq<Blob>): Media
    requires forall i :: 0 <= i < |writes| ==> Slot(writes[i].path)
    decreases |writes|
  {
    if writes == [] then m else AfterWrites(Run(m, BlobOps(m.live, writes[0].path, writes[0].content)), writes[1..])
  }

  lemma {:induction false} PlaceableLater(live: map<Path, Item>, b: Blob, p: Path)
    requires Slot(b.path) && Placeable(live, b.path) && Slot(p) && Placeable(live, p) && p != b.path
    ensures Placeable(live[b.path[..1] := Folder][b.path[..2] := Folder][b.path := Plain(b.content, true)] - {TMP}, p)
  {
    SlotIsElsewhere(p);
    SlotIsElsewhere(b.path);
    assert p[..2][..1] == p[..1] && b.path[..2][..1] == b.path[..1];
  }

  lemma {:induction false} ReadableLater(live: map<Path, Item>, b: Blob, p: Path, c: Bytes)
    requires Slot(b.path) && Placeable(live, b.path) && Readable(live, p, c)
    ensures Readable(live[b.path[..1] := Folder][b.path[..2] := Folder][b.path := Plain(b.content, true)] - {TMP}, p, c)
  {
    SlotIsElsewhere(p);
    SlotIsElsewhere(b.path);
  }

  /** What one write leaves for the rest of the program. */
  lemma {:induction false} RestAfterWrite(needs: Needs, m: Media, writes: seq<Blob>, meta: Bytes)
    requires writes != [] && AllPlaceable(m.live, writes) && Supplied(needs, m.live, writes, meta)
    ensures var r := Run(m, BlobOps(m.live, writes[0].path, writes[0].content));
      AllPlaceable(r.live, writes[1..]) && Supplied(needs, r.live, writes[1..], meta)
  {
    hide Run, BlobOps, Placeable, Settled;
    var b := writes[0];
    BlobStored(m, b.path, b.content);
    var r := Run(m, BlobOps(m.live, b.path, b.content));
    forall i | 0 <= i < |writes[1..]| ensures Slot(writes[1..][i].path) && Placeable(r.live, writes[1..][i].path) {
      assert writes[1..][i] == writes[i + 1];
      PlaceableLater(m.live, b, writes[i + 1].path);
    }
    forall p | p in needs(meta) ensures Readable(r.live, p, needs(meta)[p]) || Blob(p, needs(meta)[p]) in writes[1..] {
      if Readable(m.live, p, needs(meta)[p]) {
        ReadableLater(m.live, b, p, needs(meta)[p]);
      } else if Blob(p, needs(meta)[p]) == b {
        JustWritten(m.live, b);
      }
    }
  }

  lemma {:induction false} JustWritten(live: map<Path, Item>, b: Blob)
    requires Slot(b.path)
    ensures Readable(live[b.path[..1] := Folder][b.path[..2] := Folder][b.path := Plain(b.content, true)] - {TMP}, b.path, b.content)
  {
    SlotIsElsewhere(b.path);
  }

  lemma {:induction false} ProgramParts(m: Media, writes: seq<Blob>, meta: Bytes, dels: seq<Path>) returns (ops: seq<Op>)
    requires forall i :: 0 <= i < |writes| ==> Slot(writes[i].path)
    ensures Program(m, writes, meta, dels) == ops + (MetaOps(meta) + DeleteOps(dels)) && Run(m, ops) == AfterWrites(m, writes)
    decreases |writes|
  {
    hide BlobOps, MetaOps;
    if writes == [] {
      ops := [];
      assert [] + (MetaOps(meta) + DeleteOps(dels)) == MetaOps(meta) + DeleteOps(dels);
    } else {
      var first := BlobOps(m.live, writes[0].path, writes[0].content);
      var rest := ProgramParts(Run(m, first), writes[1..], meta, dels);
      ops := first + rest;
      RunConcat(m, first, rest);
      assert first + (rest + (MetaOps(meta) + DeleteOps(dels))) == first + rest + (MetaOps(meta) + DeleteOps(dels));
    }
  }

  /** A backup that starts clean is safe in every step, whatever the system does, and ends clean with
      the new metadata. */
  lemma {:induction false} ProgramIsSafe(needs: Needs, m: Media, metas: set<Bytes>, writes: seq<Blob>, meta: Bytes, dels: seq<Path>)
    requires Inv(needs, m, metas) && Settled(m) && AllPlaceable(m.live, writes) && Supplied(needs, m.live, writes, meta)
    requires Deletable(needs, Run(AfterWrites(m, writes), MetaOps(meta)), meta, dels)
    ensures AllSafe(needs, m, Program(m, writes, meta, dels))
    ensures var r := Run(m, Program(m, writes, meta, dels));
      Settled(r) && Inv(needs, r, {meta}) && At(r.live, META) == Some(Plain(meta, true))
    decreases |writes|
  {
    hide Inv, Settled, BlobOps, Run, Safe, Placeable, Kept, MetaOps, Deletable;
    if writes == [] {
      forall p | p in needs(meta) ensures Kept(m, p, needs(meta)[p]) { KeptWhenSettled(m, p, needs(meta)[p]); }
      CommitIsSafe(needs, m, metas, meta);
      MetaStored(m, meta);
      MetaIsNotTmp();
      CollectIsSafe(needs, Run(m, MetaOps(meta)), meta, dels);
      AllSafeConcat(needs, m, MetaOps(meta), DeleteOps(dels));
      RunConcat(m, MetaOps(meta), DeleteOps(dels));
    } else {
      var b := writes[0];
      var ops := BlobOps(m.live, b.path, b.content);
      BlobStored(m, b.path, b.content);
      StepsKeepInv(needs, m, ops, metas);
      RestAfterWrite(needs, m, writes, meta);
      ProgramIsSafe(needs, Run(m, ops), metas, writes[1..], meta, dels);
      AllSafeConcat(needs, m, ops, Program(Run(m, ops), writes[1..], meta, dels));
      RunConcat(m, ops, Program(Run(m, ops), writes[1..], meta, dels));
    }
  }

  lemma {:induction false} MetaIsNotTmp()
    ensures META != TMP
  {
    assert TMP[0][0] != META[0][0];
  }

  /** Crash safety of one backup: after every step, whichever metadata a crash leaves only refers to
      stored files that are there with the right content; and at the end everything is on the disk. */
  lemma {:induction false} BackupIsCrashSafe(needs: Needs, m: Media, writes: seq<Blob>, meta: Bytes, dels: seq<Path>, k: nat)
    requires Clean(needs, m) && AllPlaceable(m.live, writes) && Supplied(needs, m.live, writes, meta)
    requires Deletable(needs, Run(AfterWrites(m, writes), MetaOps(meta)), meta, dels)
    requires k <= |Program(m, writes, meta, dels)|
    ensures Safe(needs, Run(m, Program(m, writes, meta, dels)[..k]))
    ensures Clean(needs, Run(m, Program(m, writes, meta, dels)))
  {
    hide Inv, Settled, Run, Safe, Program, Supplied, Deletable, Placeable;
    ProgramIsSafe(needs, m, Current(m), writes, meta, dels);
    AllSafeMeans(needs, m, Program(m, writes, meta, dels), k);
  }

  // ----- crashes and reboots -----

  predicate Reached(raw: map<Path, Item>, p: Path) {
    p in raw && forall k :: 0 < k < |p| ==> At(raw, p[..k]) == Some(Folder)
  }

  /** What the next start of the system sees: only what hangs below directories, all of it on the
      disk; a file that was not synced may hold anything. */
  ghost predicate Rebooted(raw: map<Path, Item>, r: Media) {
    && r.loose == map[]
    && forall p {:trigger At(r.live, p)} ::
         if !Reached(raw, p) then At(r.live, p) == None
         else if raw[p].Plain? && !raw[p].synced then At(r.live, p).Some? && At(r.live, p).value.Plain?
         else At(r.live, p) == Some(raw[p])
  }

  lemma {:induction false} ReadableAfterReboot(raw: map<Path, Item>, r: Media, p: Path, c: Bytes)
    requires Rebooted(raw, r) && Readable(raw, p, c)
    ensures Kept(r, p, c)
  {
    assert p[..2][..1] == p[..1];
    assert Reached(raw, p[..1]) && Reached(raw, p[..2]) && Reached(raw, p);
    assert At(r.live, p[..1]) == Some(Folder) && At(r.live, p[..2]) == Some(Folder) && At(r.live, p) == Some(Plain(c, true));
  }

  /** A system crash in a safe state leaves a clean repository. */
  lemma {:induction false} CrashLeavesClean(needs: Needs, m: Media, raw: map<Path, Item>, r: Media)
    requires Safe(needs, m) && Survives(m, raw) && Rebooted(raw, r)
    ensures Clean(needs, r)
  {
    assert Dependable(needs, raw);
    assert Reached(raw, META) <==> META in raw;
    assert Reached(raw, TMP) <==> TMP in raw;
    assert At(r.live, META) == At(raw, META);
    assert NoFolder(At(r.live, TMP));
    assert Settled(r) by {
      forall q | q in r.live && |q| > 1 ensures At(r.live, q[..|q| - 1]) == Some(Folder) {
        assert At(r.live, q) != None;
        ReachedParent(raw, q);
        assert At(r.live, q[..|q| - 1]) == Some(Folder);
      }
    }
    if META in raw {
      var meta := raw[META].content;
      forall p | p in needs(meta) ensures Kept(r, p, needs(meta)[p]) {
        ReadableAfterReboot(raw, r, p, needs(meta)[p]);
      }
    }
  }

  lemma {:induction false} ReachedParent(raw: map<Path, Item>, q: Path)
    requires Reached(raw, q) && |q| > 1
    ensures Reached(raw, q[..|q| - 1]) && raw[q[..|q| - 1]] == Folder
  {
    var p := q[..|q| - 1];
    assert At(raw, q[..|q| - 1]) == Some(Folder);
    forall k | 0 < k < |p| ensures At(raw, p[..k]) == Some(Folder) { assert p[..k] == q[..k]; }
  }

  /** A backup that completes, or during which the system crashes. */
  datatype Episode = Episode(writes: seq<Blob>, meta: Bytes, dels: seq<Path>, crash: Option<Crash>)
  datatype Crash = Crash(steps: nat, raw: map<Path, Item>, after: Media)

  ghost predicate Legal(needs: Needs, m: Media, e: Episode) {
    && AllPlaceable(m.live, e.writes) && Supplied(needs, m.live, e.writes, e.meta)
    && Deletable(needs, Run(AfterWrites(m, e.writes), MetaOps(e.meta)), e.meta, e.dels)
    && (e.crash.Some? ==>
      var ops := Program(m, e.writes, e.meta, e.dels);
      && e.crash.value.steps <= |ops|
      && Survives(Run(m, ops[..e.crash.value.steps]), e.crash.value.raw)
      && Rebooted(e.crash.value.raw, e.crash.value.after))
  }

  function AfterEpisode(m: Media, e: Episode): Media
    requires forall i :: 0 <= i < |e.writes| ==> Slot(e.writes[i].path)
  {
    if e.crash.Some? then e.crash.value.after else Run(m, Program(m, e.writes, e.meta, e.dels))
  }

  ghost predicate Plays(needs: Needs, m: Media, es: seq<Episode>)
    decreases |es|
  {
    es == [] || (Legal(needs, m, es[0]) && Plays(needs, AfterEpisode(m, es[0]), es[1..]))
  }

  ghost function EndOf(needs: Needs, m: Media, es: seq<Episode>): Media
    requires Plays(needs, m, es)
    decreases |es|
  {
    if es == [] then m else EndOf(needs, AfterEpisode(m, es[0]), es[1..])
  }

  /** However many backups complete or are cut short by a crash of the system, the repository stays
      dependable. */
  lemma {:induction false} AnyHistoryIsClean(needs: Needs, m: Media, es: seq<Episode>)
    requires Clean(needs, m) && Plays(needs, m, es)
    ensures Clean(needs, EndOf(needs, m, es)) && Safe(needs, EndOf(needs, m, es))
    decreases |es|
  {
    hide Settled, Inv, Run, Program, Survives, Rebooted, Deletable, Placeable, Supplied, Safe;
    if es == [] {
      InvIsSafe(needs, m, Current(m));
    } else {
      var e := es[0];
      BackupIsCrashSafe(needs, m, e.writes, e.meta, e.dels, if e.crash.Some? then e.crash.value.steps else 0);
      if e.crash.Some? {
        CrashLeavesClean(needs, Run(m, Program(m, e.writes, e.meta, e.dels)[..e.crash.value.steps]), e.crash.value.raw, e.crash.value.after);
      }
      AnyHistoryIsClean(needs, AfterEpisode(m, e), es[1..]);
    }
  }

  // ----- starting from a repository that is not on the disk yet -----

  predicate WritesTo(op: Op, q: Path) {
    match op
    case WriteTmp(_) => q == TMP
    case FlushTmp => q == TMP
    case MakeDir(p) => q == p
    case SyncDir(_) => false
    case RenameTmp(p) => q == p || q == TMP
    case Delete(p) => q == p
  }

  predicate LeavesAlone(ops: seq<Op>, q: Path) { forall i :: 0 <= i < |ops| ==> !WritesTo(ops[i], q) }

  predicate Syncs(ops: seq<Op>, d: Path) { SyncDir(d) in ops }

  /** An entry that is not written keeps its value, and stays as unsettled as it was until its
      directory is synced. */
  lemma {:induction false} Untouched(m: Media, ops: seq<Op>, q: Path)
    requires q != [] && LeavesAlone(ops, q)
    ensures var r := Run(m, ops);
      && At(r.live, q) == At(m.live, q)
      && (q in r.loose <==> q in m.loose && !Syncs(ops, Parent(q)))
      && (q in r.loose ==> r.loose[q] == m.loose[q])
    decreases |ops|
  {
    if ops != [] {
      assert !WritesTo(ops[0], q);
      UntouchedStep(m, ops[0], q);
      hide Apply, WritesTo;
      forall i | 0 <= i < |ops[1..]| ensures !WritesTo(ops[1..][i], q) { assert ops[1..][i] == ops[i + 1]; }
      Untouched(Apply(m, ops[0]), ops[1..], q);
      assert Syncs(ops, Parent(q)) <==> ops[0] == SyncDir(Parent(q)) || Syncs(ops[1..], Parent(q));
    }
  }

  lemma {:induction false} UntouchedStep(m: Media, op: Op, q: Path)
    requires q != [] && !WritesTo(op, q)
    ensures var r := Apply(m, op);
      && At(r.live, q) == At(m.live, q)
      && (q in r.loose <==> q in m.loose && op != SyncDir(Parent(q)))
      && (q in r.loose ==> r.loose[q] == m.loose[q])
  {
  }

  lemma {:induction false} BlobOpsLeaveAlone(live: map<Path, Item>, p: Path, c: Bytes, q: Path)
    requires Slot(p) && Placeable(live, p) && q in live && q != TMP
    ensures LeavesAlone(BlobOps(live, p, c), q)
  {
  }

  /** The first part of the program: everything up to the metadata. */
  function WriteOps(m: Media, writes: seq<Blob>): seq<Op>
    requires forall i :: 0 <= i < |writes| ==> Slot(writes[i].path)
    decreases |writes|
  {
    if writes == [] then []
    else
      var ops := BlobOps(m.live, writes[0].path, writes[0].content);
      ops + WriteOps(Run(m, ops), writes[1..])
  }

  lemma {:induction false} CommitParts(m: Media, writes: seq<Blob>, meta: Bytes)
    requires forall i :: 0 <= i < |writes| ==> Slot(writes[i].path)
    ensures Program(m, writes, meta, []) == WriteOps(m, writes) + MetaOps(meta)
    ensures Run(m, WriteOps(m, writes)) == AfterWrites(m, writes)
    ensures Run(m, Program(m, writes, meta, [])) == Run(AfterWrites(m, writes), MetaOps(meta))
  {
    hide BlobOps, MetaOps, Slot, Run, Program, WriteOps;
    WritesThenMeta(m, writes, meta);
    WritesRun(m, writes);
    RunConcat(m, WriteOps(m, writes), MetaOps(meta));
  }

  lemma {:induction false} WritesThenMeta(m: Media, writes: seq<Blob>, meta: Bytes)
    requires forall i :: 0 <= i < |writes| ==> Slot(writes[i].path)
    ensures Program(m, writes, meta, []) == WriteOps(m, writes) + MetaOps(meta)
    decreases |writes|
  {
    hide BlobOps, MetaOps, Slot, Run;
    if writes == [] {
      assert MetaOps(meta) + DeleteOps([]) == [] + MetaOps(meta);
    } else {
      var ops := BlobOps(m.live, writes[0].path, writes[0].content);
      var rest := WriteOps(Run(m, ops), writes[1..]);
      WritesThenMeta(Run(m, ops), writes[1..], meta);
      assert ops + (rest + MetaOps(meta)) == ops + rest + MetaOps(meta);
    }
  }

  lemma {:induction false} WritesRun(m: Media, writes: seq<Blob>)
    requires forall i :: 0 <= i < |writes| ==> Slot(writes[i].path)
    ensures Run(m, WriteOps(m, writes)) == AfterWrites(m, writes)
    decreases |writes|
  {
    hide BlobOps, Slot, Run;
    if writes == [] {
      NoSteps(m);
    } else {
      var ops := BlobOps(m.live, writes[0].path, writes[0].content);
      WritesRun(Run(m, ops), writes[1..]);
      RunConcat(m, ops, WriteOps(Run(m, ops), writes[1..]));
    }
  }

  /** Nothing that existed is written, and everything new ends up on the disk. */
  lemma {:induction false} WritesKeep(m: Media, writes: seq<Blob>, q: Path)
    requires AllPlaceable(m.live, writes) && q != TMP
    ensures var r := AfterWrites(m, writes);
      && (q in m.live ==> LeavesAlone(WriteOps(m, writes), q) && q in r.live)
      && (q in r.live && q !in m.live ==> q !in r.loose)
    decreases |writes|
  {
    hide BlobOps, Run, Settled, LeavesAlone, Syncs;
    if writes == [] {
      assert LeavesAlone([], q) by { NothingWritten(q); }
    } else {
      var b := writes[0];
      var ops := BlobOps(m.live, b.path, b.content);
      var m1 := Run(m, ops);
      BlobStored(m, b.path, b.content);
      RestAfterWrite(c => map[], m, writes, []);
      WritesKeep(m1, writes[1..], q);
      if q in m.live {
        BlobOpsLeaveAlone(m.live, b.path, b.content, q);
        LeavesAloneConcat(ops, WriteOps(m1, writes[1..]), q);
      } else if q in m1.live {
        CommitParts(m1, writes[1..], []);
        if q != [] { Untouched(m1, WriteOps(m1, writes[1..]), q); }
        SlotIsElsewhere(b.path);
      }
    }
  }

  lemma {:induction false} NothingWritten(q: Path)
    ensures LeavesAlone([], q)
  {
  }

  lemma {:induction false} LeavesAloneConcat(a: seq<Op>, b: seq<Op>, q: Path)
    requires LeavesAlone(a, q) && LeavesAlone(b, q)
    ensures LeavesAlone(a + b, q)
  {
    hide WritesTo;
  }

  /** A crash may turn the entry into something else. */
  ghost predicate Wobbly(m: Media, q: Path) { q in m.loose && exists v :: v in m.loose[q] && v != At(m.live, q) }

  /** An entry that existed when the process started, was not on the disk, and is not synced by it. */
  ghost predicate Exposed(m: Media, ops: seq<Op>, q: Path)
    requires q != []
  {
    q in m.live && Wobbly(m, q) && !Syncs(ops, Parent(q))
  }

  /** After a commit an entry can still get lost exactly when it is exposed. */
  lemma {:induction false} WobblyIsExposed(m: Media, writes: seq<Blob>, meta: Bytes, q: Path)
    requires AllPlaceable(m.live, writes) && q != [] && q != TMP && q != META
    requires q in Run(m, Program(m, writes, meta, [])).live
    ensures Wobbly(Run(m, Program(m, writes, meta, [])), q) <==> Exposed(m, Program(m, writes, meta, []), q)
  {
    hide Run, Program, Settled, BlobOps, LeavesAlone, Syncs, Placeable;
    var ops := Program(m, writes, meta, []);
    var mid := AfterWrites(m, writes);
    CommitParts(m, writes, meta);
    WritesKeep(m, writes, q);
    MetaLeavesAlone(meta, q);
    if q in m.live {
      LeavesAloneConcat(WriteOps(m, writes), MetaOps(meta), q);
      Untouched(m, ops, q);
    } else {
      Untouched(mid, MetaOps(meta), q);
    }
  }

  lemma {:induction false} MetaLeavesAlone(meta: Bytes, q: Path)
    requires q != TMP && q != META
    ensures LeavesAlone(MetaOps(meta), q)
  {
  }

  /** An entry with two possible values makes a crash possible that loses the stored file. */
  lemma {:induction false} WobblyIsUnsafe(needs: Needs, m: Media, meta: Bytes, p: Path, q: Path)
    requires At(m.live, META) == Some(Plain(meta, true)) && p in needs(meta) && Slot(p)
    requires q == p || q == p[..2] || q == p[..1]
    requires Readable(m.live, p, needs(meta)[p]) && Wobbly(m, q)
    ensures !Safe(needs, m)
  {
    SlotIsElsewhere(p);
    var v :| v in m.loose[q] && v != At(m.live, q);
    var raw: map<Path, Item> := if v.Some? then m.live[q := v.value] else m.live - {q};
    assert At(raw, q) == v;
    forall x {:trigger At(raw, x)} ensures x != q ==> At(raw, x) == At(m.live, x) {}
    assert Survives(m, raw);
    assert At(raw, META) == At(m.live, META);
    assert !Readable(raw, p, needs(meta)[p]);
  }

  lemma {:induction false} SteadyIsSafe(needs: Needs, m: Media, meta: Bytes)
    requires At(m.live, META) == Some(Plain(meta, true)) && META !in m.loose && TMP !in m.live && TMP !in m.loose
    requires forall p :: p in needs(meta) ==>
      Readable(m.live, p, needs(meta)[p]) && !Wobbly(m, p) && !Wobbly(m, p[..2]) && !Wobbly(m, p[..1])
    ensures Safe(needs, m)
  {
    forall raw: map<Path, Item> {:trigger Survives(m, raw)} | Survives(m, raw) ensures Dependable(needs, raw) {
      assert At(raw, META) == At(m.live, META) && At(raw, TMP) == At(m.live, TMP);
      forall p | p in needs(meta) ensures Readable(raw, p, needs(meta)[p]) {
        assert !Wobbly(m, p) && !Wobbly(m, p[..2]) && !Wobbly(m, p[..1]);
        assert At(raw, p) == At(m.live, p) && At(raw, p[..2]) == At(m.live, p[..2]) && At(raw, p[..1]) == At(m.live, p[..1]);
      }
    }
  }

  /** The exact condition, for a repository in any state: after a commit every crash is survived if
      and only if no stored file that the metadata needs, and no directory of one, was found by this
      process while its entry was not yet on the disk, and then left unsynced. */
  lemma {:induction false} CommitIsSafeIffNothingExposed(needs: Needs, m: Media, writes: seq<Blob>, meta: Bytes)
    requires AllPlaceable(m.live, writes) && Supplied(needs, m.live, writes, meta)
    requires forall p :: p in needs(meta) ==> Slot(p)
    ensures var ops := Program(m, writes, meta, []);
      Safe(needs, Run(m, ops)) <==> forall p :: p in needs(meta) ==> !Exposed(m, ops, p) && !Exposed(m, ops, p[..2])
  {
    hide Run, Program, Settled, BlobOps, Placeable, Supplied, Wobbly, Safe, Exposed, Syncs, MetaOps;
    var ops := Program(m, writes, meta, []);
    var mid := AfterWrites(m, writes);
    var r := Run(m, ops);
    CommitParts(m, writes, meta);
    MetaStored(mid, meta);
    MetaIsNotTmp();
    forall p | p in needs(meta)
      ensures Readable(r.live, p, needs(meta)[p]) && !Wobbly(r, p[..1])
      ensures Wobbly(r, p) <==> Exposed(m, ops, p)
      ensures Wobbly(r, p[..2]) <==> Exposed(m, ops, p[..2])
    {
      SlotIsElsewhere(p);
      SuppliedAfterWrites(needs, m, writes, meta, p);
      assert Readable(r.live, p, needs(meta)[p]);
      TopIsSteady(r, p);
      WobblyIsExposed(m, writes, meta, p);
      WobblyIsExposed(m, writes, meta, p[..2]);
    }
    if forall p :: p in needs(meta) ==> !Exposed(m, ops, p) && !Exposed(m, ops, p[..2]) {
      SteadyIsSafe(needs, r, meta);
    } else {
      var p :| p in needs(meta) && (Exposed(m, ops, p) || Exposed(m, ops, p[..2]));
      WobblyIsUnsafe(needs, r, meta, p, if Exposed(m, ops, p) then p else p[..2]);
    }
  }

  lemma {:induction false} TopIsSteady(m: Media, p: Path)
    requires Slot(p) && forall q :: |q| == 1 ==> q !in m.loose
    ensures !Wobbly(m, p[..1])
  {
    assert |p[..1]| == 1;
  }

  lemma {:induction false} SuppliedAfterWrites(needs: Needs, m: Media, writes: seq<Blob>, meta: Bytes, p: Path)
    requires AllPlaceable(m.live, writes) && Supplied(needs, m.live, writes, meta) && p in needs(meta)
    ensures Readable(AfterWrites(m, writes).live, p, needs(meta)[p])
    decreases |writes|
  {
    hide BlobOps, Run, Placeable, Readable;
    if writes != [] {
      RestAfterWrite(needs, m, writes, meta);
      SuppliedAfterWrites(needs, Run(m, BlobOps(m.live, writes[0].path, writes[0].content)), writes[1..], meta, p);
    }
  }

  // ----- a process that is killed -----

  const FILE: Path := [[97], [98, 98], [99]]

  function OneFile(meta: Bytes): map<Path, Bytes> { if meta == [1] then map[FILE := [7]] else map[] }

  /** What is left of an empty repository when a backup is killed after it made the directories of its
      first file, before it synced the last of them. The system keeps running. */
  function Killed(): Media { Run(Media(map[], map[]), BlobOps(map[], FILE, [7])[..5]) }

  lemma {:induction false} KilledIs()
    ensures var m := Killed();
      && m.live == map[TMP := Plain([7], true), FILE[..1] := Folder, FILE[..2] := Folder]
      && FILE[..2] in m.loose && m.loose[FILE[..2]] == {None}
  {
    var m0 := Media(map[], map[]);
    SlotIsElsewhere(FILE);
    var ops := BlobOps(map[], FILE, [7]);
    assert ops[..5] == [WriteTmp([7]), FlushTmp] + [MakeDir(FILE[..1]), SyncDir([]), MakeDir(FILE[..2])];
    RunConcat(m0, [WriteTmp([7]), FlushTmp], [MakeDir(FILE[..1]), SyncDir([]), MakeDir(FILE[..2])]);
    TmpWritten(m0, [7]);
    var m1 := Run(m0, [WriteTmp([7]), FlushTmp]);
    assert m1.live == map[TMP := Plain([7], true)];
    Run3(m1, MakeDir(FILE[..1]), SyncDir([]), MakeDir(FILE[..2]));
    var m2 := Apply(Apply(m1, MakeDir(FILE[..1])), SyncDir([]));
    assert FILE[..2] !in m2.live && FILE[..2] !in m2.loose by { assert m1.loose.Keys <= {TMP}; }
  }

  /** The next backup completes, but finds the directory and does not sync its parent: a crash of the
      system can then lose the directory with the file in it, although the metadata refers to it. */
  lemma {:induction false} KilledBackupSpoilsTheNext()
    ensures !Safe(OneFile, Run(Killed(), Program(Killed(), [Blob(FILE, [7])], [1], [])))
  {
    hide Run, Settled;
    var m := Killed();
    KilledIs();
    SlotIsElsewhere(FILE);
    var writes := [Blob(FILE, [7])];
    assert FILE != TMP && FILE[..2] != FILE && FILE[..1] != FILE;
    assert Placeable(m.live, FILE) by { assert FILE !in m.live; }
    var ops := Program(m, writes, [1], []);
    CommitParts(m, writes, [1]);
    assert writes[1..] == [];
    assert ops == [WriteTmp([7]), FlushTmp, RenameTmp(FILE), SyncDir(FILE[..2]), SyncDir([])] + MetaOps([1]);
    assert Parent(FILE[..2]) == FILE[..1];
    assert |FILE[..1]| == 1 && |FILE[..2]| == 2;
    assert !Syncs(ops, FILE[..1]);
    assert Wobbly(m, FILE[..2]) by { assert None in m.loose[FILE[..2]]; }
    assert Supplied(OneFile, m.live, writes, [1]) by { assert Blob(FILE, [7]) == writes[0]; }
    CommitIsSafeIffNothingExposed(OneFile, m, writes, [1]);
    assert FILE in OneFile([1]) && Exposed(m, ops, FILE[..2]);
  }

  // ----- the writer -----

  /** The repository as the writer changes it, and the steps it has taken. */
  class Writer {
    var media: Media
    ghost var steps: seq<Op>

    constructor (media: Media)
      ensures this.media == media && steps == []
    {
      this.media, steps := media, [];
    }

    /** One system call. */
    method Do(op: Op)
      modifies this
      ensures media == Apply(old(media), op) && steps == old(steps) + [op]
    {
      media, steps := Apply(media, op), steps + [op];
    }

    method DoTwo(a: Op, b: Op)
      modifies this
      ensures media == Run(old(media), [a, b]) && steps == old(steps) + [a, b]
    {
      Run2(media, a, b);
      Do(a);
      Do(b);
    }

    /** The directories are looked for from the inside to the outside, and made and synced from the
        outside to the inside. */
    method MakeDirectories(p: Path)
      requires Slot(p)
      modifies this
      ensures media == Run(old(media), DirOps(old(media).live, p)) && steps == old(steps) + DirOps(old(media).live, p)
    {
      hide Apply, Run;
      ghost var start := media;
      ghost var first := (if p[..1] in start.live then [] else [MakeDir(p[..1]), SyncDir([])]);
      NoSteps(start);
      if p[..2] !in media.live {
        if p[..1] !in media.live { DoTwo(MakeDir(p[..1]), SyncDir([])); }
        RunConcat(start, first, [MakeDir(p[..2]), SyncDir(p[..1])]);
        DoTwo(MakeDir(p[..2]), SyncDir(p[..1]));
      }
    }

    /** repoWriterClose() for a stored file. */
    method CloseFile(p: Path, c: Bytes)
      requires Slot(p)
      modifies this
      ensures steps == old(steps) + BlobOps(old(media).live, p, c)
      ensures media == Run(old(media), BlobOps(old(media).live, p, c))
    {
      hide Apply, Run;
      ghost var start, taken := media, steps;
      ghost var a, b, d := [WriteTmp(c), FlushTmp], DirOps(start.live, p), [RenameTmp(p), SyncDir(p[..2]), SyncDir([])];
      DoTwo(WriteTmp(c), FlushTmp);
      TmpWritten(start, c);
      SlotIsElsewhere(p);
      assert DirOps(media.live, p) == b;
      MakeDirectories(p);
      Run3(media, RenameTmp(p), SyncDir(p[..2]), SyncDir([]));
      Do(RenameTmp(p));
      Do(SyncDir(p[..2]));
      Do(SyncDir([]));
      RunConcat(start, a, b);
      RunConcat(start, a + b, d);
      assert BlobOps(start.live, p, c) == a + b + d;
      assert steps == taken + (a + b + d);
    }

    /** repoWriterClose() in raw mode. */
    method CloseMetadata(meta: Bytes)
      modifies this
      ensures steps == old(steps) + MetaOps(meta)
      ensures media == Run(old(media), MetaOps(meta))
    {
      Run4(media, WriteTmp(meta), FlushTmp, RenameTmp(META), SyncDir([]));
      Do(WriteTmp(meta));
      Do(FlushTmp);
      Do(RenameTmp(META));
      Do(SyncDir([]));
    }
  }

  lemma {:induction false} NoSteps(m: Media)
    ensures Run(m, []) == m
  {
  }
}
