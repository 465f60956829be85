/** The exact condition under which a commit is safe in every step, for a repository that is not on the
    disk yet when the process starts. */
module CommitSafety {
  import opened Data
  import opened CrashSafety

  /** A stored file that every crash leaves with the right bytes. */
  ghost predicate Firm(m: Media, p: Path, c: Bytes) {
    Readable(m.live, p, c) && !Wobbly(m, p) && !Wobbly(m, p[..2]) && !Wobbly(m, p[..1])
  }

  ghost predicate AllFirm(needs: Needs, m: Media, meta: Bytes) {
    forall p :: p in needs(meta) ==> Firm(m, p, needs(meta)[p])
  }

  /** Whichever metadata may be found after a crash is one of the given, and what it needs is firm. */
  ghost predicate FirmInv(needs: Needs, m: Media, metas: set<Bytes>) {
    && PossibleMeta(metas, At(m.live, META))
    && (META in m.loose ==> forall v :: v in m.loose[META] ==> PossibleMeta(metas, v))
    && NoFolder(At(m.live, TMP)) && (TMP in m.loose ==> forall v :: v in m.loose[TMP] ==> NoFolder(v))
    && (forall meta :: meta in metas ==> AllFirm(needs, m, meta))
  }

  lemma {:induction false} FirmIsSafe(needs: Needs, m: Media, metas: set<Bytes>)
    requires FirmInv(needs, m, metas)
    ensures Safe(needs, m)
  {
    forall raw: map<Path, Item> {:trigger Survives(m, raw)} | Survives(m, raw) ensures Dependable(needs, raw) {
      assert At(raw, TMP) == At(m.live, TMP) || (TMP in m.loose && At(raw, TMP) in m.loose[TMP]);
      if META in raw {
        assert At(raw, META) == Some(raw[META]);
        var meta := raw[META].content;
        forall p | p in needs(meta) ensures Readable(raw, p, needs(meta)[p]) {
          assert Firm(m, p, needs(meta)[p]);
          assert At(raw, p[..1]) == At(m.live, p[..1]) && At(raw, p[..2]) == At(m.live, p[..2]) && At(raw, p) == At(m.live, p);
        }
      }
    }
  }

  // ----- a safe state is firm -----

  function Values(m: Media, q: Path): set<Option<Item>> { {At(m.live, q)} + if q in m.loose then m.loose[q] else {} }

  /** All metadata that may be found after a crash. */
  function MetasOf(m: Media): set<Bytes> {
    set v | v in Values(m, META) && v.Some? && v.value.Plain? :: v.value.content
  }

  function With(live: map<Path, Item>, q: Path, v: Option<Item>): map<Path, Item> {
    if v.Some? then live[q := v.value] else live - {q}
  }

  lemma {:induction false} OneValue(m: Media, q: Path, v: Option<Item>)
    requires v in Values(m, q)
    ensures Survives(m, With(m.live, q, v)) && At(With(m.live, q, v), q) == v
    ensures forall x :: x != q ==> At(With(m.live, q, v), x) == At(m.live, x)
  {
    var raw := With(m.live, q, v);
    forall x {:trigger At(raw, x)} ensures x != q ==> At(raw, x) == At(m.live, x) {}
  }

  lemma {:induction false} TwoValues(m: Media, q: Path, v: Option<Item>, p: Path, u: Option<Item>)
    requires v in Values(m, q) && u in Values(m, p) && p != q
    ensures var raw := With(With(m.live, q, v), p, u);
      Survives(m, raw) && At(raw, q) == v && At(raw, p) == u && forall x :: x != p && x != q ==> At(raw, x) == At(m.live, x)
  {
    var raw := With(With(m.live, q, v), p, u);
    forall x {:trigger At(raw, x)} ensures x != p && x != q ==> At(raw, x) == At(m.live, x) {}
  }

  lemma {:induction false} SafeMetaIsFirm(needs: Needs, m: Media, v: Option<Item>, p: Path)
    requires Safe(needs, m) && v in Values(m, META) && v.Some? && v.value.Plain? && p in needs(v.value.content)
    ensures Firm(m, p, needs(v.value.content)[p])
  {
    var meta := v.value.content;
    OneValue(m, META, v);
    var raw := With(m.live, META, v);
    assert Dependable(needs, raw) && raw[META] == v.value;
    assert Readable(raw, p, needs(meta)[p]);
    SlotIsElsewhere(p);
    assert At(raw, p) == At(m.live, p) && At(raw, p[..2]) == At(m.live, p[..2]) && At(raw, p[..1]) == At(m.live, p[..1]);
    forall q, u | (q == p || q == p[..2] || q == p[..1]) && q in m.loose && u in m.loose[q] ensures u == At(m.live, q) {
      OnlyValue(needs, m, v, p, q, u);
    }
  }

  /** An entry on the way to a stored file that the metadata needs has one value only. */
  lemma {:induction false} OnlyValue(needs: Needs, m: Media, v: Option<Item>, p: Path, q: Path, u: Option<Item>)
    requires Safe(needs, m) && v in Values(m, META) && v.Some? && v.value.Plain? && p in needs(v.value.content)
    requires Readable(m.live, p, needs(v.value.content)[p]) && (q == p || q == p[..2] || q == p[..1]) && u in Values(m, q)
    ensures u == At(m.live, q)
  {
    SlotIsElsewhere(p);
    TwoValues(m, META, v, q, u);
    var raw := With(With(m.live, META, v), q, u);
    assert At(raw, META) == v && Dependable(needs, raw);
    assert Readable(raw, p, needs(v.value.content)[p]);
  }

  lemma {:induction false} SafeIsFirm(needs: Needs, m: Media)
    requires Safe(needs, m)
    ensures FirmInv(needs, m, MetasOf(m))
  {
    hide Survives, Firm;
    forall v | v in Values(m, META) ensures PossibleMeta(MetasOf(m), v) {
      OneValue(m, META, v);
      assert Dependable(needs, With(m.live, META, v));
    }
    forall v | v in Values(m, TMP) ensures NoFolder(v) {
      OneValue(m, TMP, v);
      assert Dependable(needs, With(m.live, TMP, v));
    }
    forall meta | meta in MetasOf(m) ensures AllFirm(needs, m, meta) {
      var v :| v in Values(m, META) && v.Some? && v.value.Plain? && v.value.content == meta;
      forall p | p in needs(meta) ensures Firm(m, p, needs(meta)[p]) { SafeMetaIsFirm(needs, m, v, p); }
    }
  }

  // ----- steps -----

  lemma {:induction false} FirmThroughStep(m: Media, op: Op, p: Path, c: Bytes)
    requires Firm(m, p, c) && (Harmless(m, op) || op == RenameTmp(META))
    ensures Firm(Apply(m, op), p, c)
  {
    SlotIsElsewhere(p);
  }

  lemma {:induction false} AllFirmThroughStep(needs: Needs, m: Media, op: Op, meta: Bytes)
    requires AllFirm(needs, m, meta) && (Harmless(m, op) || op == RenameTmp(META))
    ensures AllFirm(needs, Apply(m, op), meta)
  {
    hide Firm, Harmless, Apply;
    forall p | p in needs(meta) ensures Firm(Apply(m, op), p, needs(meta)[p]) { FirmThroughStep(m, op, p, needs(meta)[p]); }
  }

  lemma {:induction false} StepKeepsFirm(needs: Needs, m: Media, op: Op, metas: set<Bytes>)
    requires FirmInv(needs, m, metas) && Harmless(m, op)
    ensures FirmInv(needs, Apply(m, op), metas)
  {
    hide AllFirm;
    MetaIsNotTmp();
    forall meta | meta in metas ensures AllFirm(needs, Apply(m, op), meta) { AllFirmThroughStep(needs, m, op, meta); }
  }

  lemma {:induction false} StepsKeepFirm(needs: Needs, m: Media, ops: seq<Op>, metas: set<Bytes>)
    requires FirmInv(needs, m, metas) && AllHarmless(m, ops)
    ensures AllSafe(needs, m, ops) && FirmInv(needs, Run(m, ops), metas)
    decreases |ops|
  {
    hide FirmInv, Safe, Harmless, Apply;
    FirmIsSafe(needs, m, metas);
    if ops != [] {
      StepKeepsFirm(needs, m, ops[0], metas);
      StepsKeepFirm(needs, Apply(m, ops[0]), ops[1..], metas);
    }
  }

  lemma {:induction false} RenamedFirm(needs: Needs, m: Media, metas: set<Bytes>, meta: Bytes)
    requires FirmInv(needs, m, metas) && AllFirm(needs, m, meta) && At(m.live, TMP) == Some(Plain(meta, true))
    ensures FirmInv(needs, Apply(m, RenameTmp(META)), metas + {meta})
  {
    hide AllFirm;
    MetaIsNotTmp();
    forall x | x in metas + {meta} ensures AllFirm(needs, Apply(m, RenameTmp(META)), x) {
      AllFirmThroughStep(needs, m, RenameTmp(META), x);
    }
  }

  /** Committing the metadata is safe in every step once what it needs is firm. */
  lemma {:induction false} FirmCommit(needs: Needs, m: Media, metas: set<Bytes>, meta: Bytes)
    requires FirmInv(needs, m, metas) && AllFirm(needs, m, meta)
    ensures AllSafe(needs, m, MetaOps(meta))
  {
    hide Safe, FirmInv, AllFirm, Apply, Firm;
    var a := [WriteTmp(meta), FlushTmp];
    Run2(m, WriteTmp(meta), FlushTmp);
    TmpWritten(m, meta);
    StepsKeepFirm(needs, m, a, metas);
    var m1 := Run(m, a);
    assert Harmless(m, WriteTmp(meta)) && Harmless(Apply(m, WriteTmp(meta)), FlushTmp);
    AllFirmThroughStep(needs, m, WriteTmp(meta), meta);
    AllFirmThroughStep(needs, Apply(m, WriteTmp(meta)), FlushTmp, meta);
    RenamedFirm(needs, m1, metas, meta);
    var m2 := Apply(m1, RenameTmp(META));
    StepKeepsFirm(needs, m2, SyncDir([]), metas + {meta});
    var m3 := Apply(m2, SyncDir([]));
    FirmIsSafe(needs, m1, metas);
    FirmIsSafe(needs, m2, metas + {meta});
    FirmIsSafe(needs, m3, metas + {meta});
    Safe1(needs, m1, RenameTmp(META));
    Safe1(needs, m2, SyncDir([]));
    AllSafeConcat(needs, m1, [RenameTmp(META)], [SyncDir([])]);
    AllSafeConcat(needs, m, a, [RenameTmp(META)] + [SyncDir([])]);
    assert a + ([RenameTmp(META)] + [SyncDir([])]) == MetaOps(meta);
  }

  // ----- the writes -----

  lemma {:induction false} WritesAreHarmless(m: Media, writes: seq<Blob>)
    requires AllPlaceable(m.live, writes)
    ensures AllHarmless(m, WriteOps(m, writes)) && Run(m, WriteOps(m, writes)) == AfterWrites(m, writes)
    decreases |writes|
  {
    hide Run, BlobOps, Settled, Placeable, Harmless;
    WritesRun(m, writes);
    if writes != [] {
      var b := writes[0];
      var ops := BlobOps(m.live, b.path, b.content);
      BlobStored(m, b.path, b.content);
      var r := Run(m, ops);
      forall i | 0 <= i < |writes[1..]| ensures Slot(writes[1..][i].path) && Placeable(r.live, writes[1..][i].path) {
        assert writes[1..][i] == writes[i + 1];
        PlaceableLater(m.live, b, writes[i + 1].path);
      }
      WritesAreHarmless(r, writes[1..]);
      AllHarmlessConcat(m, ops, WriteOps(r, writes[1..]));
    }
  }

  /** After the writes an entry can still get lost exactly if it is exposed. */
  lemma {:induction false} WrittenIsFirm(m: Media, writes: seq<Blob>, q: Path)
    requires AllPlaceable(m.live, writes) && q != [] && q != TMP && q in AfterWrites(m, writes).live
    ensures Wobbly(AfterWrites(m, writes), q) <==> Exposed(m, WriteOps(m, writes), q)
  {
    hide Run, BlobOps, Settled, LeavesAlone, Syncs, Placeable;
    WritesRun(m, writes);
    WritesKeep(m, writes, q);
    if q in m.live { Untouched(m, WriteOps(m, writes), q); }
  }

  /** What the new metadata needs is not exposed by the writes. */
  ghost predicate NothingExposed(needs: Needs, m: Media, writes: seq<Blob>, meta: Bytes)
    requires forall i :: 0 <= i < |writes| ==> Slot(writes[i].path)
  {
    forall p :: p in needs(meta) && Slot(p) ==>
      !Exposed(m, WriteOps(m, writes), p) && !Exposed(m, WriteOps(m, writes), p[..2]) && !Exposed(m, WriteOps(m, writes), p[..1])
  }

  lemma {:induction false} NeededIsFirm(needs: Needs, m: Media, writes: seq<Blob>, meta: Bytes, p: Path)
    requires AllPlaceable(m.live, writes) && Supplied(needs, m.live, writes, meta) && p in needs(meta) && Slot(p)
    ensures Readable(AfterWrites(m, writes).live, p, needs(meta)[p])
    ensures Firm(AfterWrites(m, writes), p, needs(meta)[p]) <==>
      !Exposed(m, WriteOps(m, writes), p) && !Exposed(m, WriteOps(m, writes), p[..2]) && !Exposed(m, WriteOps(m, writes), p[..1])
  {
    hide Exposed, Wobbly, Supplied, Placeable;
    SlotIsElsewhere(p);
    SuppliedAfterWrites(needs, m, writes, meta, p);
    var mid := AfterWrites(m, writes);
    assert p in mid.live && p[..2] in mid.live && p[..1] in mid.live;
    WrittenIsFirm(m, writes, p);
    WrittenIsFirm(m, writes, p[..2]);
    WrittenIsFirm(m, writes, p[..1]);
  }

  /** The state right after the metadata got its name. */
  function Renamed(m: Media, meta: Bytes): Media { Run(m, [WriteTmp(meta), FlushTmp, RenameTmp(META)]) }

  lemma {:induction false} RenamedKeeps(m: Media, meta: Bytes, q: Path)
    requires q != TMP && q != META && q != []
    ensures var r := Renamed(m, meta); At(r.live, q) == At(m.live, q) && (Wobbly(r, q) <==> Wobbly(m, q))
    ensures At(Renamed(m, meta).live, META) == Some(Plain(meta, true))
  {
    hide Run, Wobbly;
    MetaIsNotTmp();
    Run3(m, WriteTmp(meta), FlushTmp, RenameTmp(META));
    var m1, m2 := Apply(m, WriteTmp(meta)), Apply(Apply(m, WriteTmp(meta)), FlushTmp);
    var r := Apply(m2, RenameTmp(META));
    assert At(m1.live, q) == At(m.live, q) && At(m2.live, q) == At(m1.live, q) && At(r.live, q) == At(m2.live, q);
    SameWobble(m, m1, q);
    SameWobble(m1, m2, q);
    SameWobble(m2, r, q);
  }

  lemma {:induction false} SameWobble(m: Media, r: Media, q: Path)
    requires At(r.live, q) == At(m.live, q) && (q in m.loose <==> q in r.loose) && (q in m.loose ==> r.loose[q] == m.loose[q])
    ensures Wobbly(r, q) <==> Wobbly(m, q)
  {
  }

  lemma {:induction false} SafeOnTheWay(needs: Needs, m: Media, writes: seq<Blob>, meta: Bytes)
    requires AllPlaceable(m.live, writes) && AllSafe(needs, m, Program(m, writes, meta, []))
    ensures Safe(needs, Renamed(AfterWrites(m, writes), meta))
  {
    hide Run, Safe, Placeable;
    CommitParts(m, writes, meta);
    var w, three := WriteOps(m, writes), [WriteTmp(meta), FlushTmp, RenameTmp(META)];
    var ops := Program(m, writes, meta, []);
    assert ops == w + MetaOps(meta) && MetaOps(meta) == three + [SyncDir([])];
    assert ops[..|w| + 3] == w + three;
    AllSafeMeans(needs, m, ops, |w| + 3);
    RunConcat(m, w, three);
  }

  /** Starting from a repository in any state, a commit is safe in every one of its steps if and only if
      it starts in a safe state, and no stored file that the new metadata needs, and no directory of one,
      was found by this process while its entry was not yet on the disk, and then left unsynced by the
      writes. */
  lemma {:induction false} EveryStepIsSafeIff(needs: Needs, m: Media, writes: seq<Blob>, meta: Bytes)
    requires AllPlaceable(m.live, writes) && Supplied(needs, m.live, writes, meta)
    requires forall p :: p in needs(meta) ==> Slot(p)
    ensures AllSafe(needs, m, Program(m, writes, meta, [])) <==> Safe(needs, m) && NothingExposed(needs, m, writes, meta)
  {
    hide Safe, Placeable, Supplied, Exposed, Wobbly, Run, Program, WriteOps, MetaOps;
    var mid := AfterWrites(m, writes);
    if Safe(needs, m) && NothingExposed(needs, m, writes, meta) {
      SafeIsFirm(needs, m);
      WritesAreHarmless(m, writes);
      StepsKeepFirm(needs, m, WriteOps(m, writes), MetasOf(m));
      forall p | p in needs(meta) ensures Firm(mid, p, needs(meta)[p]) { NeededIsFirm(needs, m, writes, meta, p); }
      FirmCommit(needs, mid, MetasOf(m), meta);
      CommitParts(m, writes, meta);
      AllSafeConcat(needs, m, WriteOps(m, writes), MetaOps(meta));
    }
    if AllSafe(needs, m, Program(m, writes, meta, [])) {
      SafeOnTheWay(needs, m, writes, meta);
      var r := Renamed(mid, meta);
      forall p | p in needs(meta)
        ensures !Exposed(m, WriteOps(m, writes), p) && !Exposed(m, WriteOps(m, writes), p[..2]) && !Exposed(m, WriteOps(m, writes), p[..1])
      {
        NeededIsFirm(needs, m, writes, meta, p);
        NeededThroughRename(needs, mid, meta, p);
      }
    }
  }

  lemma {:induction false} NeededThroughRename(needs: Needs, m: Media, meta: Bytes, p: Path)
    requires Safe(needs, Renamed(m, meta)) && p in needs(meta) && Readable(m.live, p, needs(meta)[p])
    ensures Firm(m, p, needs(meta)[p])
  {
    hide Safe, Renamed, Wobbly;
    SlotIsElsewhere(p);
    var r := Renamed(m, meta);
    forall q | q == p || q == p[..2] || q == p[..1] ensures At(r.live, q) == At(m.live, q) && (Wobbly(r, q) <==> Wobbly(m, q)) {
      RenamedKeeps(m, meta, q);
    }
    assert At(r.live, META) == Some(Plain(meta, true)) by { RenamedKeeps(m, meta, p); }
    forall q | q == p || q == p[..2] || q == p[..1] ensures !Wobbly(m, q) {
      if Wobbly(m, q) { WobblyIsUnsafe(needs, r, meta, p, q); }
    }
  }
}
