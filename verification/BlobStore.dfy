/** The content-addressed store and the second half of a backup (src/backup.c:599-821). */
module BlobStore {
  import opened Data
  import opened Str
  import opened Metadata
  import opened Backup
  import opened RepoPath

  /** The stored files by their path inside the repository. */
  type Blobs = map<Bytes, Content>

  /** Every stored file has the size and the hash that its path says. */
  ghost predicate StoreOk(env: Env, blobs: Blobs) {
    forall h: Hash, m: U64, s: Byte {:trigger FilePath(h, m, s)} ::
      FilePath(h, m, s) in blobs ==> |blobs[FilePath(h, m, s)]| == m && env.digest(blobs[FilePath(h, m, s)]) == h
  }

  /** A file info leads to the given content. */
  ghost predicate Resolves(env: Env, blobs: Blobs, i: FileInfo, content: Content) {
    && i.size == |content|
    && i.hash[..IdentityLength(i.size)] == Identity(env, content)
    && (i.size > FILE_HASH_SIZE ==> PathOf(i) in blobs && blobs[PathOf(i)] == content)
  }

  ghost predicate Extends(a: Blobs, b: Blobs) {
    forall p :: p in a ==> p in b && b[p] == a[p]
  }

  // ----- finding a slot -----

  function FindSlot(blobs: Blobs, hash: Hash, content: Content, slot: Byte): (r: Option<(Byte, bool)>)
    decreases 256 - slot
  {
    var p := FilePath(hash, |content|, slot);
    if p !in blobs then Some((slot, false))
    else if blobs[p] == content then Some((slot, true))
    else if slot == 255 then None
    else FindSlot(blobs, hash, content, slot + 1)
  }

  /** What the probe means: the first slot that is free or already holds the content; there is none
      exactly when all 256 slots hold other contents. */
  lemma {:induction false} FindSlotIsFirst(blobs: Blobs, hash: Hash, content: Content, slot: Byte)
    ensures var r := FindSlot(blobs, hash, content, slot);
      match r
      case Some((s, known)) =>
        && slot <= s
        && (known <==> FilePath(hash, |content|, s) in blobs)
        && (known ==> blobs[FilePath(hash, |content|, s)] == content)
        && (forall t: Byte {:trigger FilePath(hash, |content|, t)} :: slot <= t < s ==>
             FilePath(hash, |content|, t) in blobs && blobs[FilePath(hash, |content|, t)] != content)
      case None =>
        forall t: Byte {:trigger FilePath(hash, |content|, t)} :: slot <= t ==>
          FilePath(hash, |content|, t) in blobs && blobs[FilePath(hash, |content|, t)] != content
    decreases 256 - slot
  {
    hide FilePath;
    var p := FilePath(hash, |content|, slot);
    if p in blobs && blobs[p] != content && slot < 255 {
      FindSlotIsFirst(blobs, hash, content, slot + 1);
    }
  }

  /** The store after a file was added, and the slot it has; None if every slot is taken. */
  function AddFile(blobs: Blobs, hash: Hash, content: Content): Option<(Blobs, Byte)> {
    var r :- FindSlot(blobs, hash, content, 0);
    Some((if r.1 then blobs else blobs[FilePath(hash, |content|, r.0) := content], r.0))
  }

  /** A success leads to the content, changes no stored file, adds at most one, and keeps the store
      consistent, whatever collisions and holes there are. */
  lemma {:induction false} AddFileResolves(env: Env, blobs: Blobs, content: Content)
    requires AddFile(blobs, env.digest(content), content).Some?
    ensures var (after, slot) := AddFile(blobs, env.digest(content), content).value;
      var p := FilePath(env.digest(content), |content|, slot);
      && p in after && after[p] == content
      && Extends(blobs, after) && after.Keys <= blobs.Keys + {p}
      && (StoreOk(env, blobs) ==> StoreOk(env, after))
      && (forall t: Byte {:trigger FilePath(env.digest(content), |content|, t)} :: t < slot ==>
           FilePath(env.digest(content), |content|, t) in blobs && blobs[FilePath(env.digest(content), |content|, t)] != content)
  {
    hide FilePath;
    FindSlotIsFirst(blobs, env.digest(content), content, 0);
    var (after, slot) := AddFile(blobs, env.digest(content), content).value;
    var p := FilePath(env.digest(content), |content|, slot);
    if StoreOk(env, blobs) {
      forall h: Hash, m: U64, s: Byte | FilePath(h, m, s) in after
        ensures |after[FilePath(h, m, s)]| == m && env.digest(after[FilePath(h, m, s)]) == h
      {
        if FilePath(h, m, s) == p { FilePathInjective(h, m, s, env.digest(content), |content|, slot); }
      }
    }
  }

  lemma {:induction false} FindSlotAgain(blobs: Blobs, after: Blobs, hash: Hash, content: Content, slot: Byte)
    requires FindSlot(blobs, hash, content, slot).Some?
    requires var (s, known) := FindSlot(blobs, hash, content, slot).value;
      after == if known then blobs else blobs[FilePath(hash, |content|, s) := content]
    ensures FindSlot(after, hash, content, slot) == Some((FindSlot(blobs, hash, content, slot).value.0, true))
    decreases 256 - slot
  {
    hide FilePath;
    var p := FilePath(hash, |content|, slot);
    var (s, known) := FindSlot(blobs, hash, content, slot).value;
    if p in blobs && blobs[p] != content {
      FindSlotIsFirst(blobs, hash, content, slot + 1);
      if FilePath(hash, |content|, s) == p { FilePathInjective(hash, |content|, s, hash, |content|, slot); }
      FindSlotAgain(blobs, after, hash, content, slot + 1);
    }
  }

  /** No content is stored twice: adding it again changes nothing, and leads to the same slot. */
  lemma {:induction false} StoredOnce(env: Env, blobs: Blobs, content: Content)
    requires AddFile(blobs, env.digest(content), content).Some?
    ensures var (after, slot) := AddFile(blobs, env.digest(content), content).value;
      AddFile(after, env.digest(content), content) == Some((after, slot))
  {
    hide FilePath, FindSlot;
    var (after, slot) := AddFile(blobs, env.digest(content), content).value;
    FindSlotAgain(blobs, after, env.digest(content), content, 0);
  }

  /** Adding a file fails exactly if all 256 slots of its hash and size hold other contents. */
  lemma {:induction false} AddFileFails(env: Env, blobs: Blobs, content: Content)
    ensures AddFile(blobs, env.digest(content), content).None? <==>
      forall t: Byte {:trigger FilePath(env.digest(content), |content|, t)} ::
        FilePath(env.digest(content), |content|, t) in blobs && blobs[FilePath(env.digest(content), |content|, t)] != content
  {
    hide FilePath, FindSlot;
    FindSlotIsFirst(blobs, env.digest(content), content, 0);
  }

  // ----- finishing a backup -----

  /** The nodes whose content is not yet in the repository. */
  predicate NeedsFinish(n: Node) {
    && n.history != [] && n.history[0].state.RegularFile?
    && n.history[0].state.info.size > 0
    && (IsKind(n.hint, Added) || IsKind(n.hint, SymlinkToRegular) || IsKind(n.hint, DirectoryToRegular) || Has(n.hint, ContentChanged))
  }

  /** addFileToRepo(): the file must not have changed since it was found. */
  function FinishInfo(env: Env, blobs: Blobs, i: FileInfo, hashed: bool, e: Option<Entry>): Option<(Blobs, FileInfo)> {
    if e.None? || !e.value.File? || e.value.mtime != i.mtime then None
    else if hashed && i.size <= FILE_HASH_SIZE then Some((blobs, i))
    else if |e.value.content| != i.size then None
    else if i.size > FILE_HASH_SIZE then
      var hash := if hashed then i.hash else env.digest(e.value.content);
      var r :- AddFile(blobs, hash, e.value.content);
      Some((r.0, i.(hash := hash, slot := r.1)))
    else Some((blobs, i.(hash := StoreIdentity(i.hash, e.value.content))))
  }

  /** Storing a found file fails exactly if there is no regular file with the time and the size that were found
      any more, or if all slots of its hash and size hold other contents. */
  lemma {:induction false} FinishFails(env: Env, blobs: Blobs, i: FileInfo, hashed: bool, e: Option<Entry>)
    requires hashed && e.Some? && e.value.File? ==>
      i.size == |e.value.content| && i.hash[..IdentityLength(i.size)] == Identity(env, e.value.content)
    ensures FinishInfo(env, blobs, i, hashed, e).None? <==>
      || e.None? || !e.value.File? || e.value.mtime != i.mtime || |e.value.content| != i.size
      || (i.size > 20 && forall t: Byte {:trigger FilePath(env.digest(e.value.content), i.size, t)} ::
            FilePath(env.digest(e.value.content), i.size, t) in blobs && blobs[FilePath(env.digest(e.value.content), i.size, t)] != e.value.content)
  {
    hide FilePath, AddFile;
    if e.Some? && e.value.File? {
      AddFileFails(env, blobs, e.value.content);
      if hashed && i.size > FILE_HASH_SIZE { assert i.hash[..20] == i.hash; }
    }
  }

  function EntryAt(fs: map<Bytes, Entry>, path: Bytes): Option<Entry> {
    if path in fs then Some(fs[path]) else None
  }

  function WithInfo(n: Node, i: FileInfo): Node
    requires n.history != [] && n.history[0].state.RegularFile?
  {
    n.(history := [n.history[0].(state := n.history[0].state.(info := i))] + n.history[1..])
  }

  function FinishSelf(env: Env, fs: map<Bytes, Entry>, blobs: Blobs, n: Node): Option<(Blobs, Node)> {
    if !NeedsFinish(n) then Some((blobs, n))
    else
      var r :- FinishInfo(env, blobs, n.history[0].state.info, Has(n.hint, FreshHash), EntryAt(fs, n.path));
      Some((r.0, WithInfo(n, r.1)))
  }

  function FinishNode(env: Env, fs: map<Bytes, Entry>, blobs: Blobs, n: Node): Option<(Blobs, Node)>
    decreases n, 1
  {
    var r :- FinishSelf(env, fs, blobs, n);
    var s :- FinishList(env, fs, r.0, n.subs);
    Some((s.0, r.1.(subs := s.1)))
  }

  /** finishBackupRecursively() */
  function FinishList(env: Env, fs: map<Bytes, Entry>, blobs: Blobs, ns: seq<Node>): (r: Option<(Blobs, seq<Node>)>)
    ensures r.Some? ==> |r.value.1| == |ns|
    decreases ns, 0
  {
    if ns == [] then Some((blobs, []))
    else
      var r :- FinishNode(env, fs, blobs, ns[0]);
      var s :- FinishList(env, fs, r.0, ns[1..]);
      Some((s.0, [r.1] + s.1))
  }

  /** A hash array that is marked hashed holds the identity of the file. */
  ghost predicate FreshOk(env: Env, n: Node, fs: map<Bytes, Entry>) {
    NeedsFinish(n) && Has(n.hint, FreshHash) ==>
      && n.path in fs && fs[n.path].File?
      && n.history[0].state.info.size == |fs[n.path].content|
      && n.history[0].state.info.hash[..IdentityLength(n.history[0].state.info.size)] == Identity(env, fs[n.path].content)
  }

  /** What finishing means for one node: nothing but the hash and slot of a new content changes,
      and that content can be found. */
  ghost predicate FinishedSelf(env: Env, fs: map<Bytes, Entry>, blobs: Blobs, n: Node, r: Node) {
    if !NeedsFinish(n) then r.(subs := n.subs) == n
    else
      && r.history != [] && r.history[0].state.RegularFile?
      && r.(subs := n.subs) == WithInfo(n, n.history[0].state.info.(hash := r.history[0].state.info.hash, slot := r.history[0].state.info.slot))
      && n.path in fs && fs[n.path].File?
      && Resolves(env, blobs, r.history[0].state.info, fs[n.path].content)
  }

  ghost predicate Finished(env: Env, fs: map<Bytes, Entry>, blobs: Blobs, n: Node, r: Node)
    decreases n
  {
    && FinishedSelf(env, fs, blobs, n, r)
    && |r.subs| == |n.subs|
    && (forall i :: 0 <= i < |n.subs| ==> Finished(env, fs, blobs, n.subs[i], r.subs[i]))
  }

  ghost predicate AllFreshOk(env: Env, n: Node, fs: map<Bytes, Entry>)
    decreases n
  {
    FreshOk(env, n, fs) && forall i :: 0 <= i < |n.subs| ==> AllFreshOk(env, n.subs[i], fs)
  }

  lemma {:induction false} ResolvesLater(env: Env, a: Blobs, b: Blobs, i: FileInfo, c: Content)
    requires Resolves(env, a, i, c) && Extends(a, b)
    ensures Resolves(env, b, i, c)
  {
    hide FilePath;
  }

  lemma {:induction false} FinishedLater(env: Env, fs: map<Bytes, Entry>, a: Blobs, b: Blobs, n: Node, r: Node)
    requires Finished(env, fs, a, n, r) && Extends(a, b)
    ensures Finished(env, fs, b, n, r)
    decreases n
  {
    hide Resolves;
    if NeedsFinish(n) { ResolvesLater(env, a, b, r.history[0].state.info, fs[n.path].content); }
    forall i | 0 <= i < |n.subs| ensures Finished(env, fs, b, n.subs[i], r.subs[i]) {
      FinishedLater(env, fs, a, b, n.subs[i], r.subs[i]);
    }
  }

  lemma {:induction false} FinishInfoResolves(env: Env, blobs: Blobs, i: FileInfo, hashed: bool, e: Option<Entry>)
    requires StoreOk(env, blobs) && FinishInfo(env, blobs, i, hashed, e).Some?
    requires hashed ==>
      && e.Some? && e.value.File? && i.size == |e.value.content|
      && i.hash[..IdentityLength(i.size)] == Identity(env, e.value.content)
    ensures e.Some? && e.value.File?
    ensures var (after, j) := FinishInfo(env, blobs, i, hashed, e).value;
      && Extends(blobs, after) && StoreOk(env, after)
      && j == i.(hash := j.hash, slot := j.slot)
      && Resolves(env, after, j, e.value.content)
  {
    hide FilePath, StoreOk;
    var content := e.value.content;
    if i.size > FILE_HASH_SIZE {
      assert hashed ==> i.hash[..20] == i.hash;
      AddFileResolves(env, blobs, content);
    }
  }

  lemma {:induction false} FinishSelfLaw(env: Env, fs: map<Bytes, Entry>, blobs: Blobs, n: Node)
    requires StoreOk(env, blobs) && FreshOk(env, n, fs) && FinishSelf(env, fs, blobs, n).Some?
    ensures var (after, r) := FinishSelf(env, fs, blobs, n).value;
      Extends(blobs, after) && StoreOk(env, after) && FinishedSelf(env, fs, after, n, r) && r.subs == n.subs
  {
    hide FinishInfo, StoreOk, Resolves;
    if NeedsFinish(n) {
      FinishInfoResolves(env, blobs, n.history[0].state.info, Has(n.hint, FreshHash), EntryAt(fs, n.path));
      var j := FinishInfo(env, blobs, n.history[0].state.info, Has(n.hint, FreshHash), EntryAt(fs, n.path)).value.1;
      assert WithInfo(n, j).history[0].state.info == j;
      assert WithInfo(n, j).(subs := n.subs) == WithInfo(n, j);
    }
  }

  lemma {:induction false} FinishNodeLaw(env: Env, fs: map<Bytes, Entry>, blobs: Blobs, n: Node)
    requires StoreOk(env, blobs) && AllFreshOk(env, n, fs) && FinishNode(env, fs, blobs, n).Some?
    ensures var (after, r) := FinishNode(env, fs, blobs, n).value;
      Extends(blobs, after) && StoreOk(env, after) && Finished(env, fs, after, n, r)
    decreases n, 1
  {
    hide FinishSelf, StoreOk, Resolves;
    FinishSelfLaw(env, fs, blobs, n);
    var (mid, self) := FinishSelf(env, fs, blobs, n).value;
    FinishListLaw(env, fs, mid, n.subs);
    var (after, subs) := FinishList(env, fs, mid, n.subs).value;
    if NeedsFinish(n) { ResolvesLater(env, mid, after, self.history[0].state.info, fs[n.path].content); }
  }

  /** Finishing a backup fills in exactly the missing hashes and slots; afterwards each of them
      leads to the content of its file, and everything stored before is still there. */
  lemma {:induction false} FinishListLaw(env: Env, fs: map<Bytes, Entry>, blobs: Blobs, ns: seq<Node>)
    requires StoreOk(env, blobs) && (forall i :: 0 <= i < |ns| ==> AllFreshOk(env, ns[i], fs))
    requires FinishList(env, fs, blobs, ns).Some?
    ensures var (after, rs) := FinishList(env, fs, blobs, ns).value;
      && Extends(blobs, after) && StoreOk(env, after)
      && forall i :: 0 <= i < |ns| ==> Finished(env, fs, after, ns[i], rs[i])
    decreases ns, 0
  {
    hide StoreOk, Finished, FinishNode;
    if ns != [] {
      FinishNodeLaw(env, fs, blobs, ns[0]);
      var (mid, first) := FinishNode(env, fs, blobs, ns[0]).value;
      FinishListLaw(env, fs, mid, ns[1..]);
      var (after, rest) := FinishList(env, fs, mid, ns[1..]).value;
      FinishedLater(env, fs, mid, after, ns[0], first);
      var rs := FinishList(env, fs, blobs, ns).value.1;
      forall i | 0 <= i < |ns| ensures Finished(env, fs, after, ns[i], rs[i]) {
        if i > 0 { assert ns[i] == ns[1..][i - 1] && rs[i] == rest[i - 1]; }
      }
    }
  }

  // ----- in place -----

  /** equalsToStoredFile(): compares block by block and stops at the first difference. */
  method EqualsStoredFile(content: Content, stored: Content, blocksize: nat) returns (equal: bool)
    requires blocksize > 0 && |stored| == |content|
    ensures equal <==> content == stored
  {
    var done := 0;
    equal := true;
    while done < |content| && equal
      invariant 0 <= done <= |content|
      invariant equal ==> content[..done] == stored[..done]
      invariant !equal ==> content != stored
      decreases |content| - done, equal
    {
      var n := if |content| - done > blocksize then blocksize else |content| - done;
      equal := content[done..done + n] == stored[done..done + n];
      if equal {
        assert content[..done + n] == content[..done] + content[done..done + n];
        assert stored[..done + n] == stored[..done] + stored[done..done + n];
        done := done + n;
      }
    }
    if equal { assert content[..done] == content && stored[..done] == stored; }
  }

  class Repository {
    const env: Env
    const fs: map<Bytes, Entry>
    const blocksize: nat
    var blobs: Blobs

    constructor (env: Env, fs: map<Bytes, Entry>, blocksize: nat, blobs: Blobs)
      ensures this.env == env && this.fs == fs && this.blocksize == blocksize && this.blobs == blobs
    {
      this.env, this.fs, this.blocksize, this.blobs := env, fs, blocksize, blobs;
    }

    ghost predicate Valid() reads this { blocksize > 0 && StoreOk(env, blobs) }

    /** searchFileDuplicates(): at most 256 probes. */
    method SearchFileDuplicates(hash: Hash, content: Content) returns (r: Option<(Byte, bool)>)
      requires Valid()
      ensures r == FindSlot(blobs, hash, content, 0)
    {
      hide FilePath;
      var slot: Byte := 0;
      while FilePath(hash, |content|, slot) in blobs
        invariant FindSlot(blobs, hash, content, slot) == FindSlot(blobs, hash, content, 0)
        decreases 256 - slot
      {
        assert |blobs[FilePath(hash, |content|, slot)]| == |content|;
        var equal := EqualsStoredFile(content, blobs[FilePath(hash, |content|, slot)], blocksize);
        if equal { return Some((slot, true)); }
        if slot == 255 { return None; }
        slot := slot + 1;
      }
      r := Some((slot, false));
    }

    /** copyFileIntoRepo(): block by block into the temporary file, which then gets its final name. */
    method CopyFileIntoRepo(path: Bytes, content: Content)
      requires Valid()
      modifies this`blobs
      ensures blobs == old(blobs)[path := content]
    {
      var tmp: Bytes := [];
      var bytesLeft := |content|;
      while bytesLeft > 0
        invariant 0 <= bytesLeft <= |content|
        invariant tmp == content[..|content| - bytesLeft]
      {
        var n := if bytesLeft > blocksize then blocksize else bytesLeft;
        var at := |content| - bytesLeft;
        tmp := tmp + content[at..at + n];
        bytesLeft := bytesLeft - n;
      }
      assert tmp == content;
      blobs := blobs[path := tmp];
    }

    /** addFileToRepo() */
    method AddFileToRepo(info: FileInfo, hashed: bool, e: Option<Entry>) returns (r: Option<FileInfo>)
      requires Valid()
      requires hashed ==>
        && e.Some? && e.value.File? && info.size == |e.value.content|
        && info.hash[..IdentityLength(info.size)] == Identity(env, e.value.content)
      modifies this`blobs
      ensures r.Some? <==> FinishInfo(env, old(blobs), info, hashed, e).Some?
      ensures r.Some? ==> FinishInfo(env, old(blobs), info, hashed, e) == Some((blobs, r.value)) && Valid()
    {
      hide FilePath;
      if e.None? || !e.value.File? || e.value.mtime != info.mtime { return None; }
      var content := e.value.content;
      var result := info;
      if info.size > FILE_HASH_SIZE {
        if |content| != info.size { return None; }
        if !hashed { result := result.(hash := env.digest(content)); }
        var found := SearchFileDuplicates(result.hash, content);
        if found.None? { return None; }
        result := result.(slot := found.value.0);
        if !found.value.1 { CopyFileIntoRepo(PathOf(result), content); }
      } else if !hashed {
        if |content| != info.size { return None; }
        result := result.(hash := StoreIdentity(info.hash, content));
      }
      FinishInfoResolves(env, old(blobs), info, hashed, e);
      r := Some(result);
    }

    /** finishBackupRecursively() */
    method FinishBackup(ns: seq<Node>) returns (r: Option<seq<Node>>)
      requires Valid() && (forall i :: 0 <= i < |ns| ==> AllFreshOk(env, ns[i], fs))
      modifies this`blobs
      ensures r.Some? <==> FinishList(env, fs, old(blobs), ns).Some?
      ensures r.Some? ==> FinishList(env, fs, old(blobs), ns) == Some((blobs, r.value)) && Valid()
      decreases ns
    {
      hide StoreOk, FinishInfo, WithInfo;
      var rs := [];
      var i := 0;
      ghost var start := blobs;
      assert ns[0..] == ns;
      ghost var all := FinishList(env, fs, start, ns);
      if all.Some? { assert [] + all.value.1 == all.value.1; }
      while i < |ns|
        invariant 0 <= i <= |ns| && |rs| == i && Valid()
        invariant FinishList(env, fs, start, ns) == Joined(rs, FinishList(env, fs, blobs, ns[i..]))
      {
        assert ns[i..][0] == ns[i] && ns[i..][1..] == ns[i + 1..];
        ghost var before := blobs;
        var n := ns[i];
        if NeedsFinish(n) {
          var info := AddFileToRepo(n.history[0].state.info, Has(n.hint, FreshHash), EntryAt(fs, n.path));
          if info.None? { return None; }
          n := WithInfo(n, info.value);
        }
        var subs := FinishBackup(ns[i].subs);
        if subs.None? { return None; }
        n := n.(subs := subs.value);
        assert FinishNode(env, fs, before, ns[i]) == Some((blobs, n));
        JoinedStep(rs, n, FinishList(env, fs, blobs, ns[i + 1..]));
        rs := rs + [n];
        i := i + 1;
      }
      assert rs + [] == rs;
      r := Some(rs);
    }
  }

  function Joined(rs: seq<Node>, d: Option<(Blobs, seq<Node>)>): Option<(Blobs, seq<Node>)> {
    if d.None? then None else Some((d.value.0, rs + d.value.1))
  }

  lemma {:induction false} JoinedStep(rs: seq<Node>, n: Node, d: Option<(Blobs, seq<Node>)>)
    ensures Joined(rs, if d.None? then None else Some((d.value.0, [n] + d.value.1))) == Joined(rs + [n], d)
  {
    if d.Some? { assert rs + ([n] + d.value.1) == rs + [n] + d.value.1; }
  }
}
