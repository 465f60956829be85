/** A run of the program as the durable steps it takes: the files that finishing a backup stores, the
    metadata file it writes and the files that garbage collection deletes, on a disk that may crash. */
module Durable {
  import opened Data
  import opened Metadata
  import opened Backup
  import opened RepoPath
  import opened BlobStore
  import opened Codec
  import opened CodecRoundTrip
  import opened Renumber
  import opened GarbageCollector
  import opened Stock
  import opened FixedConfig
  import opened Runs
  import C = CrashSafety

  // ----- stored files on the disk -----

  /** A path inside the repository that has the form of a stored file's path. */
  predicate Shelved(p: Bytes) { |p| > 5 && p[1] == SLASH && p[4] == SLASH }

  /** The same path by its elements: one digit, two digits, and the rest. */
  function Elements(p: Bytes): (r: C.Path)
    requires Shelved(p)
    ensures C.Slot(r) && |r[1]| == 2
  {
    [p[..1], p[2..4], p[5..]]
  }

  lemma {:induction false} ElementsInjective(p: Bytes, q: Bytes)
    requires Shelved(p) && Shelved(q) && Elements(p) == Elements(q)
    ensures p == q
  {
    assert p == p[..1] + [SLASH] + p[2..4] + [SLASH] + p[5..];
    assert q == q[..1] + [SLASH] + q[2..4] + [SLASH] + q[5..];
    assert p[..1] == Elements(p)[0] && p[2..4] == Elements(p)[1] && p[5..] == Elements(p)[2];
    assert q[..1] == Elements(q)[0] && q[2..4] == Elements(q)[1] && q[5..] == Elements(q)[2];
  }

  lemma {:induction false} FilePathIsShelved(h: Hash, size: U64, slot: Byte)
    ensures Shelved(FilePath(h, size, slot))
  {
    hide HexBytes, HexNumber;
  }

  // ----- the files that a backup stores -----

  function AddWrites(blobs: Blobs, hash: Hash, content: Content): (r: seq<C.Blob>)
    ensures forall i :: 0 <= i < |r| ==> C.Slot(r[i].path)
  {
    var r := FindSlot(blobs, hash, content, 0);
    if r.None? || r.value.1 then []
    else
      FilePathIsShelved(hash, |content|, r.value.0);
      [C.Blob(Elements(FilePath(hash, |content|, r.value.0)), content)]
  }

  function SelfWrites(env: Env, fs: map<Bytes, Entry>, blobs: Blobs, n: Node): (r: seq<C.Blob>)
    ensures forall i :: 0 <= i < |r| ==> C.Slot(r[i].path)
  {
    if !NeedsFinish(n) || FinishSelf(env, fs, blobs, n).None? || n.history[0].state.info.size <= FILE_HASH_SIZE then []
    else
      var i, e := n.history[0].state.info, EntryAt(fs, n.path).value;
      AddWrites(blobs, if Has(n.hint, FreshHash) then i.hash else env.digest(e.content), e.content)
  }

  /** The files that finishBackupRecursively() copies into the repository, in order. */
  function ListWrites(env: Env, fs: map<Bytes, Entry>, blobs: Blobs, ns: seq<Node>): (r: seq<C.Blob>)
    ensures forall i :: 0 <= i < |r| ==> C.Slot(r[i].path)
    decreases ns
  {
    if ns == [] then []
    else
      var self, own := FinishSelf(env, fs, blobs, ns[0]), SelfWrites(env, fs, blobs, ns[0]);
      if self.None? then own
      else
        var below, under := FinishList(env, fs, self.value.0, ns[0].subs), ListWrites(env, fs, self.value.0, ns[0].subs);
        if below.None? then own + under
        else own + under + ListWrites(env, fs, below.value.0, ns[1..])
  }

  /** What the writes do to the stored files: each goes to a path that was free, no two to the same,
      and together they are all the difference. */
  ghost predicate Difference(before: Blobs, after: Blobs, writes: seq<C.Blob>) {
    && Extends(before, after)
    && (forall i :: 0 <= i < |writes| ==> Stores(before, after, writes[i]))
    && (forall i, j :: 0 <= i < j < |writes| ==> writes[i].path != writes[j].path)
    && (forall p :: p in after && Shelved(p) ==> p in before || C.Blob(Elements(p), after[p]) in writes)
  }

  ghost predicate Stores(before: Blobs, after: Blobs, w: C.Blob) {
    exists p :: Shelved(p) && w.path == Elements(p) && p !in before && p in after && after[p] == w.content
  }

  lemma {:induction false} NoDifference(b: Blobs)
    ensures Difference(b, b, [])
  {
  }

  lemma {:induction false} DifferenceConcat(a: Blobs, b: Blobs, c: Blobs, x: seq<C.Blob>, y: seq<C.Blob>)
    requires Difference(a, b, x) && Difference(b, c, y)
    ensures Difference(a, c, x + y)
  {
    hide Elements, Shelved;
    forall i | 0 <= i < |x + y| ensures Stores(a, c, (x + y)[i]) {
      if i < |x| {
        assert Stores(a, b, x[i]);
      } else {
        assert Stores(b, c, y[i - |x|]);
      }
    }
    forall i, j | 0 <= i < j < |x + y| ensures (x + y)[i].path != (x + y)[j].path {
      if i < |x| <= j {
        assert Stores(a, b, x[i]) && Stores(b, c, y[j - |x|]);
        var p :| Shelved(p) && x[i].path == Elements(p) && p in b;
        var q :| Shelved(q) && y[j - |x|].path == Elements(q) && q !in b;
        if Elements(p) == Elements(q) { ElementsInjective(p, q); }
      }
    }
  }

  lemma {:induction false} AddDiffers(blobs: Blobs, hash: Hash, content: Content)
    requires AddFile(blobs, hash, content).Some?
    ensures Difference(blobs, AddFile(blobs, hash, content).value.0, AddWrites(blobs, hash, content))
  {
    hide FilePath, Elements, Shelved;
    FindSlotIsFirst(blobs, hash, content, 0);
    var (slot, known) := FindSlot(blobs, hash, content, 0).value;
    var p := FilePath(hash, |content|, slot);
    FilePathIsShelved(hash, |content|, slot);
    var after := AddFile(blobs, hash, content).value.0;
    if known {
      NoDifference(blobs);
    } else {
      assert Stores(blobs, after, C.Blob(Elements(p), content)) by { assert p !in blobs && after[p] == content; }
    }
  }

  lemma {:induction false} SelfDiffers(env: Env, fs: map<Bytes, Entry>, blobs: Blobs, n: Node)
    requires FinishSelf(env, fs, blobs, n).Some?
    ensures Difference(blobs, FinishSelf(env, fs, blobs, n).value.0, SelfWrites(env, fs, blobs, n))
  {
    hide AddFile, AddWrites, Difference;
    NoDifference(blobs);
    if NeedsFinish(n) && n.history[0].state.info.size > FILE_HASH_SIZE {
      var i, e := n.history[0].state.info, EntryAt(fs, n.path).value;
      AddDiffers(blobs, if Has(n.hint, FreshHash) then i.hash else env.digest(e.content), e.content);
    }
  }

  /** The writes of a backup are exactly the difference it makes to the stored files. */
  lemma {:induction false} ListDiffers(env: Env, fs: map<Bytes, Entry>, blobs: Blobs, ns: seq<Node>)
    requires FinishList(env, fs, blobs, ns).Some?
    ensures Difference(blobs, FinishList(env, fs, blobs, ns).value.0, ListWrites(env, fs, blobs, ns))
    decreases ns
  {
    hide FinishSelf, SelfWrites, Difference;
    NoDifference(blobs);
    if ns != [] {
      var self := FinishSelf(env, fs, blobs, ns[0]).value;
      SelfDiffers(env, fs, blobs, ns[0]);
      ListDiffers(env, fs, self.0, ns[0].subs);
      var below := FinishList(env, fs, self.0, ns[0].subs).value;
      ListDiffers(env, fs, below.0, ns[1..]);
      var rest := FinishList(env, fs, below.0, ns[1..]).value;
      var own, under := SelfWrites(env, fs, blobs, ns[0]), ListWrites(env, fs, self.0, ns[0].subs);
      DifferenceConcat(blobs, self.0, below.0, own, under);
      DifferenceConcat(blobs, below.0, rest.0, own + under, ListWrites(env, fs, below.0, ns[1..]));
    }
  }

  // ----- a repository on a disk -----

  /** Every stored file can be found with its content, and nothing else stands where one could be. */
  ghost predicate Mirrors(live: map<C.Path, C.Item>, blobs: Blobs) {
    forall p :: Shelved(p) ==>
      (p in blobs ==> C.Readable(live, Elements(p), blobs[p])) && (Elements(p) in live ==> p in blobs)
  }

  /** What could be a directory of stored files is one. */
  predicate Tidy(live: map<C.Path, C.Item>) {
    forall q :: q in live && |q| > 0 && |q[0]| == 1 && (|q| == 1 || (|q| == 2 && |q[1]| == 2)) ==> live[q] == C.Folder
  }

  lemma {:induction false} DifferenceIsPlaceable(m: C.Media, before: Blobs, after: Blobs, writes: seq<C.Blob>)
    requires C.Settled(m) && Tidy(m.live) && Mirrors(m.live, before) && Difference(before, after, writes)
    ensures C.AllPlaceable(m.live, writes)
    ensures forall i :: 0 <= i < |writes| ==> |writes[i].path[1]| == 2
  {
    hide Shelved;
    forall i | 0 <= i < |writes|
      ensures C.Slot(writes[i].path) && C.Placeable(m.live, writes[i].path) && |writes[i].path[1]| == 2
    {
      assert Stores(before, after, writes[i]);
      var p :| Shelved(p) && writes[i].path == Elements(p) && p !in before && p in after;
      var e := Elements(p);
      assert e !in m.live;
      if e[..2] in m.live { assert e[..2][..1] == e[..1]; }
    }
  }

  /** The files and directories after all writes. */
  lemma {:induction false} WrittenLive(m: C.Media, writes: seq<C.Blob>)
    requires C.AllPlaceable(m.live, writes) && Tidy(m.live)
    requires forall i :: 0 <= i < |writes| ==> |writes[i].path[1]| == 2
    ensures var r := C.AfterWrites(m, writes);
      && Tidy(r.live)
      && (forall q :: q in m.live && q != C.TMP ==> C.At(r.live, q) == C.At(m.live, q))
      && (forall q :: q in r.live && |q| == 3 ==> q in m.live || exists i :: 0 <= i < |writes| && writes[i].path == q)
      && (forall i :: 0 <= i < |writes| ==> C.Readable(r.live, writes[i].path, writes[i].content))
    decreases |writes|
  {
    hide C.Run, C.BlobOps, C.Settled, C.AllHarmless;
    if writes != [] {
      var b := writes[0];
      C.BlobStored(m, b.path, b.content);
      C.SlotIsElsewhere(b.path);
      var m1 := C.Run(m, C.BlobOps(m.live, b.path, b.content));
      PlaceableRest(m, m1, writes);
      OneWritten(m.live, m1.live, b);
      WrittenLive(m1, writes[1..]);
      var r := C.AfterWrites(m, writes);
      forall q | q in r.live && |q| == 3 ensures q in m.live || exists i :: 0 <= i < |writes| && writes[i].path == q {
        if q !in m1.live {
          var i :| 0 <= i < |writes[1..]| && writes[1..][i].path == q;
          assert writes[i + 1].path == q;
        } else if q !in m.live {
          assert writes[0].path == q;
        }
      }
      forall i | 0 <= i < |writes| ensures C.Readable(r.live, writes[i].path, writes[i].content) {
        if i == 0 {
          ReadableStays(m1.live, r.live, b.path, b.content);
        } else {
          assert writes[1..][i - 1] == writes[i];
        }
      }
    }
  }

  lemma {:induction false} PlaceableRest(m: C.Media, m1: C.Media, writes: seq<C.Blob>)
    requires writes != [] && C.AllPlaceable(m.live, writes)
    requires var b := writes[0]; m1.live == m.live[b.path[..1] := C.Folder][b.path[..2] := C.Folder][b.path := C.Plain(b.content, true)] - {C.TMP}
    ensures C.AllPlaceable(m1.live, writes[1..])
  {
    hide C.Placeable;
    forall i | 0 <= i < |writes[1..]| ensures C.Slot(writes[1..][i].path) && C.Placeable(m1.live, writes[1..][i].path) {
      assert writes[1..][i] == writes[i + 1];
      C.PlaceableLater(m.live, writes[0], writes[i + 1].path);
    }
  }

  lemma {:induction false} OneWritten(live: map<C.Path, C.Item>, after: map<C.Path, C.Item>, b: C.Blob)
    requires C.Slot(b.path) && |b.path[1]| == 2 && C.Placeable(live, b.path) && Tidy(live)
    requires after == live[b.path[..1] := C.Folder][b.path[..2] := C.Folder][b.path := C.Plain(b.content, true)] - {C.TMP}
    ensures Tidy(after) && C.Readable(after, b.path, b.content)
    ensures forall q :: q in live && q != C.TMP ==> C.At(after, q) == C.At(live, q)
    ensures forall q :: q in after && |q| == 3 ==> q in live || q == b.path
  {
    C.SlotIsElsewhere(b.path);
  }

  lemma {:induction false} ReadableStays(live: map<C.Path, C.Item>, after: map<C.Path, C.Item>, p: C.Path, c: Bytes)
    requires C.Readable(live, p, c) && forall q :: q in live && q != C.TMP ==> C.At(after, q) == C.At(live, q)
    ensures C.Readable(after, p, c)
  {
    C.SlotIsElsewhere(p);
  }

  /** After the writes, the disk holds the stored files of the finished backup. */
  lemma {:induction false} MirrorsAfterWrites(m: C.Media, before: Blobs, after: Blobs, writes: seq<C.Blob>)
    requires C.Settled(m) && Tidy(m.live) && Mirrors(m.live, before) && Difference(before, after, writes)
    ensures C.AllPlaceable(m.live, writes)
    ensures var r := C.AfterWrites(m, writes); Mirrors(r.live, after) && Tidy(r.live)
  {
    hide C.Settled, Tidy, Shelved, Elements, C.AllPlaceable, C.Readable;
    DifferenceIsPlaceable(m, before, after, writes);
    WrittenLive(m, writes);
    var r := C.AfterWrites(m, writes);
    forall p | Shelved(p)
      ensures p in after ==> C.Readable(r.live, Elements(p), after[p])
      ensures Elements(p) in r.live ==> p in after
    {
      if p in after {
        if p in before {
          ReadableStays(m.live, r.live, Elements(p), after[p]);
        } else {
          var i :| 0 <= i < |writes| && writes[i] == C.Blob(Elements(p), after[p]);
        }
      }
      if Elements(p) in r.live && Elements(p) !in m.live {
        var i :| 0 <= i < |writes| && writes[i].path == Elements(p);
        assert Stores(before, after, writes[i]);
        var q :| Shelved(q) && writes[i].path == Elements(q) && q in after;
        ElementsInjective(p, q);
      }
    }
  }

  // ----- what a metadata file needs -----

  function PathText(q: C.Path): Bytes {
    if q == [] then [] else if |q| == 1 then q[0] else q[0] + [SLASH] + PathText(q[1..])
  }

  lemma {:induction false} TextOfElements(p: Bytes)
    requires Shelved(p)
    ensures PathText(Elements(p)) == p
  {
    var e := Elements(p);
    assert e[1..] == [p[2..4], p[5..]] && e[1..][1..] == [p[5..]];
    assert PathText([p[5..]]) == p[5..];
    assert PathText(e[1..]) == p[2..4] + [SLASH] + p[5..];
    assert p == p[..1] + [SLASH] + (p[2..4] + [SLASH] + p[5..]);
  }

  /** The stored files among the given paths, with their contents. */
  function NeedsIn(blobs: Blobs, refs: set<Bytes>): map<C.Path, Bytes> {
    map e | e in (set p | p in refs && p in blobs && Shelved(p) :: Elements(p)) ::
      if PathText(e) in blobs then blobs[PathText(e)] else []
  }

  lemma {:induction false} NeedsMeans(blobs: Blobs, refs: set<Bytes>, e: C.Path) returns (p: Bytes)
    requires e in NeedsIn(blobs, refs)
    ensures p in refs && p in blobs && Shelved(p) && e == Elements(p) && NeedsIn(blobs, refs)[e] == blobs[p]
  {
    hide Elements, Shelved, PathText;
    p :| p in refs && p in blobs && Shelved(p) && e == Elements(p);
    TextOfElements(p);
  }

  /** What a metadata file refers to, with the contents of the given stored files. */
  function NeedsOf(blobs: Blobs): C.Needs {
    (meta: Bytes) => if Load(meta).None? then map[] else NeedsIn(blobs, ReferencedPaths(Load(meta).value.paths))
  }

  /** The repository as the next process has it, once it has loaded the metadata. */
  function Reread(m: Image, blobs: Blobs): Repo { Repo(m.paths, Recount(m), m.times, m.config, m.total, blobs) }

  /** The metadata file says what the repository is. */
  ghost predicate Says(meta: Bytes, s: Repo) {
    Load(meta).Some? && s == Reread(Load(meta).value, s.blobs)
  }

  /** A repository that is on the disk, to the last byte. Before the first backup there is no metadata. */
  ghost predicate OnDisk(s: Repo, m: C.Media) {
    && C.Settled(m) && Tidy(m.live) && Mirrors(m.live, s.blobs)
    && C.NoFolder(C.At(m.live, C.TMP)) && (C.TMP in m.loose ==> forall v :: v in m.loose[C.TMP] ==> C.NoFolder(v))
    && if C.META in m.live then m.live[C.META].Plain? && m.live[C.META].synced && Says(m.live[C.META].content, s)
       else C.META !in m.loose && s == Blank.(blobs := s.blobs)
  }

  lemma {:induction false} OnDiskIsClean(s: Repo, m: C.Media, blobs: Blobs)
    requires OnDisk(s, m) && ReferencedPaths(s.paths) <= s.blobs.Keys && Extends(s.blobs, blobs)
    ensures C.Clean(NeedsOf(blobs), m)
  {
    hide Tidy, C.Settled, Load, Elements, Shelved, C.Readable, C.Kept, NeedsIn, PathText;
    var needs := NeedsOf(blobs);
    MetaIsSettled(m);
    forall meta | meta in C.Current(m) ensures C.AllKept(needs, m, meta) {
      forall e | e in needs(meta) ensures C.Kept(m, e, needs(meta)[e]) {
        var p := NeedsMeans(blobs, ReferencedPaths(s.paths), e);
        assert p in s.blobs.Keys && blobs[p] == s.blobs[p];
        C.KeptWhenSettled(m, e, needs(meta)[e]);
      }
    }
  }

  lemma {:induction false} MetaIsSettled(m: C.Media)
    requires C.Settled(m)
    ensures C.META in m.live ==> C.META !in m.loose
  {
    C.MetaIsNotTmp();
  }

  // ----- collecting garbage -----

  /** Post-order removal: each item that goes is there, is not preserved, and has nothing left in it. */
  ghost predicate PostOrder(m: C.Media, dels: seq<C.Path>, keep: set<Bytes>)
    decreases |dels|
  {
    dels == [] ||
    (&& dels[0] != [] && dels[0] in m.live && PathText(dels[0]) !in keep
     && (forall q :: q in m.live && |q| > 1 ==> q[..|q| - 1] != dels[0])
     && PostOrder(C.Apply(m, C.Delete(dels[0])), dels[1..], keep))
  }

  /** A file that can be read is in directories that are not empty. */
  lemma {:induction false} NeededStays(m: C.Media, d: C.Path, e: C.Path, c: Bytes)
    requires C.Readable(m.live, e, c) && e != d && forall q :: q in m.live && |q| > 1 ==> q[..|q| - 1] != d
    ensures !C.IsUsed(e, d) && C.Readable(C.Apply(m, C.Delete(d)).live, e, c)
  {
    assert e in m.live && e[..2] in m.live;
    assert e[..2][..1] == e[..1] && e[..|e| - 1] == e[..2];
  }

  /** Nothing that the new metadata needs is deleted, nor a directory of it. */
  lemma {:induction false} PostOrderIsDeletable(needs: C.Needs, m: C.Media, meta: Bytes, dels: seq<C.Path>, keep: set<Bytes>)
    requires PostOrder(m, dels, keep) && PathText(C.META) in keep
    requires forall e :: e in needs(meta) ==> PathText(e) in keep && C.Readable(m.live, e, needs(meta)[e])
    ensures C.Deletable(needs, m, meta, dels)
    decreases |dels|
  {
    hide PathText, C.Apply, C.Readable, C.IsUsed;
    if dels != [] {
      var d := dels[0];
      forall e | e in needs(meta) ensures !C.IsUsed(e, d) && C.Readable(C.Apply(m, C.Delete(d)).live, e, needs(meta)[e]) {
        NeededStays(m, d, e, needs(meta)[e]);
      }
      PostOrderIsDeletable(needs, C.Apply(m, C.Delete(d)), meta, dels[1..], keep);
    }
  }

  lemma {:induction false} DeletedLive(m: C.Media, dels: seq<C.Path>)
    ensures var r := C.Run(m, C.DeleteOps(dels));
      && (forall q :: C.At(r.live, q) == if q in dels then None else C.At(m.live, q))
      && (forall q :: q in r.loose ==> q in m.loose || q in dels)
    decreases |dels|
  {
    if dels != [] {
      DeletedLive(C.Apply(m, C.Delete(dels[0])), dels[1..]);
      assert C.DeleteOps(dels)[1..] == C.DeleteOps(dels[1..]);
    }
  }

  lemma {:induction false} PostOrderMembers(m: C.Media, dels: seq<C.Path>, keep: set<Bytes>, d: C.Path)
    requires PostOrder(m, dels, keep) && d in dels
    ensures d in m.live && PathText(d) !in keep
    decreases |dels|
  {
    hide PathText;
    if d != dels[0] {
      assert d in dels[1..];
      PostOrderMembers(C.Apply(m, C.Delete(dels[0])), dels[1..], keep, d);
    }
  }

  /** Directories that are in use stay. */
  lemma {:induction false} UsedStays(m: C.Media, dels: seq<C.Path>, keep: set<Bytes>, q: C.Path)
    requires PostOrder(m, dels, keep) && q in m.live && |q| > 1 && q !in dels
    ensures q[..|q| - 1] !in dels
    decreases |dels|
  {
    hide PathText;
    if dels != [] {
      assert q != dels[0];
      UsedStays(C.Apply(m, C.Delete(dels[0])), dels[1..], keep, q);
    }
  }

  /** Garbage collection removes every stored file that is not preserved. */
  ghost predicate Thorough(blobs: Blobs, dels: seq<C.Path>, keep: set<Bytes>) {
    forall p :: p in blobs && Shelved(p) && p !in keep ==> Elements(p) in dels
  }

  lemma {:induction false} MirrorsAfterCollection(m: C.Media, blobs: Blobs, dels: seq<C.Path>, keep: set<Bytes>)
    requires Mirrors(m.live, blobs) && Tidy(m.live) && PostOrder(m, dels, keep) && Thorough(blobs, dels, keep)
    ensures var r := C.Run(m, C.DeleteOps(dels)); Mirrors(r.live, Collect(blobs, keep)) && Tidy(r.live)
  {
    hide Shelved, Elements, PathText, C.Run, C.DeleteOps, PostOrder;
    DeletedLive(m, dels);
    var r := C.Run(m, C.DeleteOps(dels));
    forall p | Shelved(p)
      ensures p in Collect(blobs, keep) ==> C.Readable(r.live, Elements(p), blobs[p])
      ensures Elements(p) in r.live ==> p in Collect(blobs, keep)
    {
      var e := Elements(p);
      TextOfElements(p);
      if p in blobs && p in keep {
        if e in dels { PostOrderMembers(m, dels, keep, e); }
        UsedStays(m, dels, keep, e);
        assert e[..|e| - 1] == e[..2] && e[..2] in m.live;
        UsedStays(m, dels, keep, e[..2]);
        assert e[..2][..1] == e[..1];
      }
      if e in r.live { assert C.At(r.live, e) == C.At(m.live, e); }
    }
    forall q | q in r.live ensures q in m.live && r.live[q] == m.live[q] { assert C.At(r.live, q) == C.At(m.live, q); }
  }

  // ----- one run on the disk -----

  lemma {:induction false} PointsAreShelved(h: seq<Point>)
    ensures forall p :: p in PointPaths(h) ==> Shelved(p)
  {
    hide Shelved, FilePath;
    if h != [] {
      PointsAreShelved(h[1..]);
      if Stored(h[0].state) {
        var i := h[0].state.info;
        FilePathIsShelved(i.hash, i.size, i.slot);
        assert PathOf(i) == FilePath(i.hash, i.size, i.slot);
      }
    }
  }

  lemma {:induction false} ReferencedAreShelved(ns: seq<Node>)
    ensures forall p :: p in ReferencedPaths(ns) ==> Shelved(p)
    decreases ns
  {
    hide Shelved;
    if ns != [] {
      PointsAreShelved(ns[0].history);
      ReferencedAreShelved(ns[0].subs);
      ReferencedAreShelved(ns[1..]);
    }
  }

  /** The parts of a run: the stored files and the tree after finishing, what is written and how the
      metadata file ends up. */
  ghost predicate RunParts(env: Env, root: SearchNode, s: Repo, run: Run, blobs: Blobs, ns: seq<Node>, writes: seq<C.Blob>, meta: Bytes) {
    var before := Searched(env, root, s, run);
    var l := LedgerAfter(env, root, s, run);
    var total := CountAfter(env, root, s, run, Total);
    && FinishList(env, run.files, s.blobs, before) == Some((blobs, ns))
    && writes == ListWrites(env, run.files, s.blobs, before)
    && ValidLedger(l) && 0 <= total <= SIZE_MAX
    && meta == EncImage(Image(NewTimes(l), s.config, total, ns), NewIds(l))
  }

  /** What holds of the parts of a run of a sound repository. */
  lemma {:induction false} PartsFit(env: Env, root: SearchNode, s: Repo, run: Run, blobs: Blobs, ns: seq<Node>, writes: seq<C.Blob>, meta: Bytes)
    requires Sound(env, root, s) && ProperRun(env, root, run) && Completes(env, root, s, run)
    requires RunParts(env, root, s, run, blobs, ns, writes, meta)
    ensures Difference(s.blobs, blobs, writes) && ReferencedPaths(s.paths) <= s.blobs.Keys && ReferencedPaths(ns) <= blobs.Keys
    ensures Next(env, root, s, run).Some? && Says(meta, Next(env, root, s, run).value)
    ensures Next(env, root, s, run).value.blobs == Collect(blobs, Preserved(ns))
    ensures Load(meta).Some? && ReferencedPaths(Load(meta).value.paths) == ReferencedPaths(ns)
  {
    hide FinishList, Searched, CountAfter, Difference, StoreOk, Stocked, FitsNodes, EncImage, Load, NewIds, NewTimes, InOrder, AllHeld;
    RunWrites(env, root, s, run);
    NextIs(env, root, s, run);
    ListDiffers(env, run.files, s.blobs, Searched(env, root, s, run));
    StockedIsReferenced(s.blobs, s.paths);
    StockedIsReferenced(blobs, ns);
    ReferencedAsWritten(ns, NewIds(LedgerAfter(env, root, s, run)));
  }

  /** What the new metadata needs was there before, or is written. */
  lemma {:induction false} NeedsAreSupplied(m: C.Media, before: Blobs, blobs: Blobs, writes: seq<C.Blob>, refs: set<Bytes>, needs: C.Needs, meta: Bytes)
    requires Mirrors(m.live, before) && Difference(before, blobs, writes) && needs(meta) == NeedsIn(blobs, refs)
    ensures C.Supplied(needs, m.live, writes, meta)
  {
    hide Shelved, Elements, NeedsIn, PathText, C.Readable;
    forall e | e in needs(meta) ensures C.Readable(m.live, e, needs(meta)[e]) || C.Blob(e, needs(meta)[e]) in writes {
      var p := NeedsMeans(blobs, refs, e);
      if p in before { assert blobs[p] == before[p]; }
    }
  }

  lemma {:induction false} MirrorsMeta(live: map<C.Path, C.Item>, after: map<C.Path, C.Item>, meta: Bytes, blobs: Blobs)
    requires Mirrors(live, blobs) && Tidy(live) && after == live[C.META := C.Plain(meta, true)] - {C.TMP}
    ensures Mirrors(after, blobs) && Tidy(after)
  {
    hide Shelved;
    forall p | Shelved(p)
      ensures p in blobs ==> C.Readable(after, Elements(p), blobs[p])
      ensures Elements(p) in after ==> p in blobs
    {
      C.SlotIsElsewhere(Elements(p));
    }
  }

  /** What is needed can be read, and is not to be deleted. */
  lemma {:induction false} NeedsArePreserved(m: C.Media, blobs: Blobs, refs: set<Bytes>, needs: C.Needs, meta: Bytes, keep: set<Bytes>)
    requires Mirrors(m.live, blobs) && needs(meta) == NeedsIn(blobs, refs) && refs <= keep
    ensures forall e :: e in needs(meta) ==> PathText(e) in keep && C.Readable(m.live, e, needs(meta)[e])
  {
    hide Shelved, Elements, NeedsIn, PathText, C.Readable;
    forall e | e in needs(meta) ensures PathText(e) in keep && C.Readable(m.live, e, needs(meta)[e]) {
      var p := NeedsMeans(blobs, refs, e);
      TextOfElements(p);
    }
  }

  /** The disk once the metadata is committed. */
  function Committed(m: C.Media, writes: seq<C.Blob>, meta: Bytes): C.Media
    requires forall i :: 0 <= i < |writes| ==> C.Slot(writes[i].path)
  {
    C.Run(C.AfterWrites(m, writes), C.MetaOps(meta))
  }

  lemma {:induction false} CommittedMirrors(m: C.Media, before: Blobs, blobs: Blobs, writes: seq<C.Blob>, meta: Bytes)
    requires C.Settled(m) && Tidy(m.live) && Mirrors(m.live, before) && Difference(before, blobs, writes)
    ensures C.AllPlaceable(m.live, writes)
    ensures var r := Committed(m, writes, meta);
      && Mirrors(r.live, blobs) && Tidy(r.live)
      && C.TMP !in r.live && C.TMP !in r.loose
      && C.At(r.live, C.META) == Some(C.Plain(meta, true))
  {
    hide C.Settled, Tidy, Mirrors, Difference, C.Run, C.MetaOps;
    MirrorsAfterWrites(m, before, blobs, writes);
    var m1 := C.AfterWrites(m, writes);
    C.MetaStored(m1, meta);
    C.MetaIsNotTmp();
    var r := C.Run(m1, C.MetaOps(meta));
    MirrorsMeta(m1.live, r.live, meta, blobs);
    assert |C.TMP| == 1;
  }

  lemma {:induction false} EndOfProgram(m: C.Media, writes: seq<C.Blob>, meta: Bytes, dels: seq<C.Path>)
    requires forall i :: 0 <= i < |writes| ==> C.Slot(writes[i].path)
    ensures C.Run(m, C.Program(m, writes, meta, dels)) == C.Run(Committed(m, writes, meta), C.DeleteOps(dels))
  {
    hide C.Run, C.Program, C.MetaOps, C.DeleteOps;
    var ops := C.ProgramParts(m, writes, meta, dels);
    C.RunConcat(m, ops, C.MetaOps(meta) + C.DeleteOps(dels));
    C.RunConcat(C.AfterWrites(m, writes), C.MetaOps(meta), C.DeleteOps(dels));
  }

  lemma {:induction false} MetaIsPreserved(ns: seq<Node>)
    ensures PathText(C.META) in Preserved(ns)
  {
    assert PathText(C.META) == METADATA;
  }

  /** A run is safe on a disk. Its stored files, metadata and deletions are executed as durable steps; then
      in every state, whichever metadata a crash of the system leaves, every stored file it refers to is
      there with its content. What that metadata can be is said in Atomicity. */
  lemma {:induction false} RunIsCrashSafe(env: Env, root: SearchNode, s: Repo, run: Run, m: C.Media, blobs: Blobs, ns: seq<Node>, writes: seq<C.Blob>, meta: Bytes, dels: seq<C.Path>, k: nat)
    requires Sound(env, root, s) && ProperRun(env, root, run) && Completes(env, root, s, run) && OnDisk(s, m)
    requires RunParts(env, root, s, run, blobs, ns, writes, meta)
    requires forall i :: 0 <= i < |writes| ==> C.Slot(writes[i].path)
    requires PostOrder(Committed(m, writes, meta), dels, Preserved(ns))
    requires k <= |C.Program(m, writes, meta, dels)|
    ensures C.Safe(NeedsOf(blobs), C.Run(m, C.Program(m, writes, meta, dels)[..k]))
    ensures C.Clean(NeedsOf(blobs), C.Run(m, C.Program(m, writes, meta, dels)))
  {
    hide Sound, ProperRun, Completes, RunParts, Next, Says, Load, Difference, C.Clean, C.Safe, C.Run, C.Program, NeedsIn, PathText, PostOrder, Tidy, Mirrors;
    hide C.AllPlaceable, C.Supplied, C.Deletable;
    PartsFit(env, root, s, run, blobs, ns, writes, meta);
    assert Extends(s.blobs, blobs) by { DifferenceExtends(s.blobs, blobs, writes); }
    var needs, refs := NeedsOf(blobs), ReferencedPaths(ns);
    assert needs(meta) == NeedsIn(blobs, refs);
    OnDiskIsClean(s, m, blobs);
    CommittedMirrors(m, s.blobs, blobs, writes, meta);
    NeedsAreSupplied(m, s.blobs, blobs, writes, refs, needs, meta);
    MetaIsPreserved(ns);
    NeedsArePreserved(Committed(m, writes, meta), blobs, refs, needs, meta, Preserved(ns));
    PostOrderIsDeletable(needs, Committed(m, writes, meta), meta, dels, Preserved(ns));
    C.BackupIsCrashSafe(needs, m, writes, meta, dels, k);
  }

  lemma {:induction false} DifferenceExtends(before: Blobs, after: Blobs, writes: seq<C.Blob>)
    requires Difference(before, after, writes)
    ensures Extends(before, after)
  {
  }

  /** And nothing that the metadata refers to is left out of the statement: every file it refers to is a
      stored file with a place on the disk. */
  lemma {:induction false} NeedsAreComplete(env: Env, root: SearchNode, s: Repo, run: Run, blobs: Blobs, ns: seq<Node>, writes: seq<C.Blob>, meta: Bytes, p: Bytes)
    requires Sound(env, root, s) && ProperRun(env, root, run) && Completes(env, root, s, run)
    requires RunParts(env, root, s, run, blobs, ns, writes, meta)
    requires Load(meta).Some? ==> p in ReferencedPaths(Load(meta).value.paths)
    ensures Load(meta).Some? && Shelved(p) && p in blobs
    ensures Elements(p) in NeedsOf(blobs)(meta) && NeedsOf(blobs)(meta)[Elements(p)] == blobs[p]
  {
    hide Sound, ProperRun, Completes, RunParts, Next, Says, Load, Difference, Shelved, Elements, PathText;
    PartsFit(env, root, s, run, blobs, ns, writes, meta);
    ReferencedAreShelved(ns);
    TextOfElements(p);
  }

  /** After the last step the repository is on the disk as the next run finds it, if garbage collection
      removed everything that is not preserved. */
  lemma {:induction false} RunEndsOnDisk(env: Env, root: SearchNode, s: Repo, run: Run, m: C.Media, blobs: Blobs, ns: seq<Node>, writes: seq<C.Blob>, meta: Bytes, dels: seq<C.Path>)
    requires Sound(env, root, s) && ProperRun(env, root, run) && Completes(env, root, s, run) && OnDisk(s, m)
    requires RunParts(env, root, s, run, blobs, ns, writes, meta)
    requires forall i :: 0 <= i < |writes| ==> C.Slot(writes[i].path)
    requires PostOrder(Committed(m, writes, meta), dels, Preserved(ns)) && Thorough(blobs, dels, Preserved(ns))
    ensures Next(env, root, s, run).Some?
    ensures OnDisk(Next(env, root, s, run).value, C.Run(m, C.Program(m, writes, meta, dels)))
  {
    hide Sound, ProperRun, Completes, RunParts, Next, Says, Load, Difference, C.Inv, C.Settled, C.Safe, C.Run, C.Program, NeedsIn, PathText, PostOrder, Tidy, Mirrors, Thorough, Committed;
    PartsFit(env, root, s, run, blobs, ns, writes, meta);
    RunIsCrashSafe(env, root, s, run, m, blobs, ns, writes, meta, dels, 0);
    CommittedMirrors(m, s.blobs, blobs, writes, meta);
    EndOfProgram(m, writes, meta, dels);
    var c := Committed(m, writes, meta);
    MirrorsAfterCollection(c, blobs, dels, Preserved(ns));
    DeletedLive(c, dels);
    MetaIsPreserved(ns);
    if C.META in dels { PostOrderMembers(c, dels, Preserved(ns), C.META); }
    if C.TMP in dels { PostOrderMembers(c, dels, Preserved(ns), C.TMP); }
    var r := C.Run(c, C.DeleteOps(dels));
    assert C.At(r.live, C.META) == C.At(c.live, C.META) && C.At(r.live, C.TMP) == None;
  }
}
