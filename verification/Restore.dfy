/** Restoring (src/restore.c): first plan by comparing with the file system, then execute. */
module Restore {
  import opened Data
  import opened Str
  import opened Metadata
  import opened Backup
  import opened RepoPath
  import opened BlobStore
  import opened Renumber
  import opened FileSystem

  // ----- planning -----

  /** searchExistingPathState() */
  function ExistingState(n: Node, id: nat): Option<PathState> {
    var s := SearchPathState(n.policy, n.history, id);
    if s.None? || s.value.NonExisting? then None else s
  }

  /** handleFiletypeChanges() of src/restore.c: the change from the file system to the state. */
  function TypeHint(h: Hint, s: PathState, e: Entry): Hint {
    match (s, e)
    case (RegularFile(_, _, _), Link(_, _, _)) => SetKind(h, SymlinkToRegular)
    case (RegularFile(_, _, _), Dir(_, _, _, _)) => SetKind(h, DirectoryToRegular)
    case (RegularFile(_, _, _), Other) => SetKind(h, OtherToRegular)
    case (Symlink(_, _, _), File(_, _, _, _, _)) => SetKind(h, RegularToSymlink)
    case (Symlink(_, _, _), Dir(_, _, _, _)) => SetKind(h, DirectoryToSymlink)
    case (Symlink(_, _, _), Other) => SetKind(h, OtherToSymlink)
    case (Directory(_, _, _, _), File(_, _, _, _, _)) => SetKind(h, RegularToDirectory)
    case (Directory(_, _, _, _), Link(_, _, _)) => SetKind(h, SymlinkToDirectory)
    case (Directory(_, _, _, _), Other) => SetKind(h, OtherToDirectory)
    case _ => h
  }

  /** checkAndHandleChanges() for a present path. */
  function ComparedHint(env: Env, h: Hint, s: PathState, e: Entry): Hint {
    var t := TypeHint(h, s, e);
    if t.core == NoFlags then ApplyNodeChanges(env, t, s, e).0 else t
  }

  function CheckedHint(env: Env, disk: Entries, n: Node, s: PathState, couldExist: bool): Hint {
    if couldExist && n.path in disk then ComparedHint(env, n.hint, s, disk[n.path]) else SetKind(n.hint, Added)
  }

  /** BH_added up to BH_other_to_directory */
  predicate Replaced(h: Hint) { h.core.Exclusive? && !h.core.kind.Unchanged? }

  /** checkAndHandleChangesRecursively() */
  function CheckNode(env: Env, disk: Entries, n: Node, s: PathState, id: nat, couldExist: bool): Node
    decreases n, 1
  {
    var n1 := n.(hint := CheckedHint(env, disk, n, s, couldExist));
    if !s.Directory? then n1 else n1.(subs := CheckList(env, disk, n.subs, id, couldExist && !Replaced(n1.hint)))
  }

  function CheckList(env: Env, disk: Entries, ns: seq<Node>, id: nat, couldExist: bool): (r: seq<Node>)
    ensures |r| == |ns|
    decreases ns, 0
  {
    seq(|ns|, i requires 0 <= i < |ns| =>
      var s := ExistingState(ns[i], id);
      if s.None? then ns[i] else CheckNode(env, disk, ns[i], s.value, id, couldExist))
  }

  /** initiateRestoreRecursively(): the first sibling that is the path, or a parent of it. */
  function InitiateList(env: Env, disk: Entries, ns: seq<Node>, id: nat, path: Bytes, couldExist: bool): Option<seq<Node>>
    decreases ns
  {
    if ns == [] then None
    else if ns[0].path == path then
      var s :- ExistingState(ns[0], id);
      Some([CheckNode(env, disk, ns[0], s, id, couldExist)] + ns[1..])
    else if IsParentPath(ns[0].path, path) then
      var s :- ExistingState(ns[0], id);
      if !s.Directory? then None
      else
        var h := CheckedHint(env, disk, ns[0], s, couldExist);
        var subs :- InitiateList(env, disk, ns[0].subs, id, path, couldExist && !Replaced(h));
        Some([ns[0].(hint := h, subs := subs)] + ns[1..])
    else
      var rest :- InitiateList(env, disk, ns[1..], id, path, couldExist);
      Some([ns[0]] + rest)
  }

  function InitiateRestore(env: Env, disk: Entries, ns: seq<Node>, id: nat, path: Bytes): Option<seq<Node>> {
    if path == [] then Some(CheckList(env, disk, ns, id, true)) else InitiateList(env, disk, ns, id, path, true)
  }

  // ----- trees that name their paths properly -----

  /** Every node hangs in the directory of its parent, under a name of its own. */
  ghost predicate Named(n: Node)
    decreases n
  {
    && (forall i :: 0 <= i < |n.subs| ==> IsChild(n.path, n.subs[i].path) && Named(n.subs[i]))
    && (forall i, j :: 0 <= i < j < |n.subs| ==> n.subs[i].path != n.subs[j].path)
  }

  ghost predicate NamedList(ns: seq<Node>, dir: Bytes) {
    && (forall i :: 0 <= i < |ns| ==> IsChild(dir, ns[i].path) && Named(ns[i]))
    && (forall i, j :: 0 <= i < j < |ns| ==> ns[i].path != ns[j].path)
  }

  /** The requested path, what is below it, and what is above it. */
  predicate InScope(p: Bytes, target: Bytes) { Below(p, target) || Below(target, p) }

  predicate Idle(n: Node)
    decreases n
  {
    n.hint == NoHint && forall i :: 0 <= i < |n.subs| ==> Idle(n.subs[i])
  }

  function RightCore(env: Env, disk: Entries, path: Bytes, s: PathState): Core {
    if path in disk then ComparedHint(env, NoHint, s, disk[path]).core else Exclusive(Added)
  }

  /** Every hint in the scope says how the file system differs from the state; the rest has none. */
  ghost predicate Planned(env: Env, disk: Entries, n: Node, id: nat, target: Bytes)
    decreases n
  {
    if !InScope(n.path, target) then Idle(n)
    else
      var s := ExistingState(n, id);
      s.Some? ==>
        && n.hint.core == RightCore(env, disk, n.path, s.value)
        && (n.path != target && Below(target, n.path) ==> s.value.Directory?)
        && (s.value.Directory? ==> forall i :: 0 <= i < |n.subs| ==> Planned(env, disk, n.subs[i], id, target))
  }

  ghost predicate AllPlanned(env: Env, disk: Entries, ns: seq<Node>, id: nat, target: Bytes) {
    forall i :: 0 <= i < |ns| ==> Planned(env, disk, ns[i], id, target)
  }

  lemma {:induction false} ScopeUpwards(p: Bytes, q: Bytes, target: Bytes)
    requires Below(q, p) && InScope(q, target)
    ensures InScope(p, target)
  {
    if Below(q, target) { BelowLinear(q, p, target); } else { BelowTrans(target, q, p); }
  }

  lemma {:induction false} ComparedCore(env: Env, h: Hint, s: PathState, e: Entry)
    requires h == NoHint && !s.NonExisting?
    ensures Replaced(ComparedHint(env, h, s, e)) <==> !SameType(s, e)
  {
    if s.RegularFile? && e.File? { FileFlags(env, FlagIf(h, s.uid != e.uid || s.gid != e.gid, OwnerChanged), s.info, e); }
  }

  lemma {:induction false} FileFlags(env: Env, h: Hint, i: FileInfo, e: Entry)
    requires e.File? && h.core.Flags?
    ensures ApplyFileChanges(env, h, i, e).0.core.Flags?
  {
  }

  /** Where a path could not exist any more, it does not exist. */
  lemma {:induction false} CheckPlans(env: Env, disk: Entries, n: Node, s: PathState, id: nat, couldExist: bool, target: Bytes)
    requires Idle(n) && Named(n) && Closed(disk) && ExistingState(n, id) == Some(s)
    requires Below(n.path, target) && (couldExist || n.path !in disk)
    ensures Planned(env, disk, CheckNode(env, disk, n, s, id, couldExist), id, target)
    decreases n, 1
  {
    hide ComparedHint;
    var r := CheckNode(env, disk, n, s, id, couldExist);
    assert r.path == n.path && ExistingState(r, id) == ExistingState(n, id);
    if s.Directory? {
      ChildrenGone(env, disk, n, s, couldExist);
      forall i | 0 <= i < |n.subs| ensures Below(n.subs[i].path, target) {
        ChildBelow(n.path, n.subs[i].path);
        BelowTrans(n.subs[i].path, n.path, target);
      }
      CheckListPlans(env, disk, n.subs, id, couldExist && !Replaced(r.hint), target);
    }
  }

  /** A directory that is to be created has nothing in it. */
  lemma {:induction false} ChildrenGone(env: Env, disk: Entries, n: Node, s: PathState, couldExist: bool)
    requires n.hint == NoHint && Named(n) && Closed(disk) && s.Directory? && (couldExist || n.path !in disk)
    ensures var h := CheckedHint(env, disk, n, s, couldExist);
      (couldExist && !Replaced(h)) || forall i :: 0 <= i < |n.subs| ==> n.subs[i].path !in disk
  {
    hide ComparedHint;
    if n.path in disk { ComparedCore(env, n.hint, s, disk[n.path]); }
    if !IsDir(disk, n.path) {
      NothingBelow(disk, n.path);
      forall i | 0 <= i < |n.subs| ensures n.subs[i].path !in disk { ChildBelow(n.path, n.subs[i].path); }
    }
  }

  lemma {:induction false} CheckListPlans(env: Env, disk: Entries, ns: seq<Node>, id: nat, couldExist: bool, target: Bytes)
    requires forall i :: 0 <= i < |ns| ==> Idle(ns[i]) && Named(ns[i]) && Below(ns[i].path, target)
    requires Closed(disk) && (couldExist || forall i :: 0 <= i < |ns| ==> ns[i].path !in disk)
    ensures AllPlanned(env, disk, CheckList(env, disk, ns, id, couldExist), id, target)
    decreases ns, 0
  {
    hide CheckNode, Closed, Named, Idle;
    var rs := CheckList(env, disk, ns, id, couldExist);
    forall i | 0 <= i < |ns| ensures Planned(env, disk, rs[i], id, target) {
      if ExistingState(ns[i], id).Some? {
        CheckPlans(env, disk, ns[i], ExistingState(ns[i], id).value, id, couldExist, target);
      } else {
        assert rs[i] == ns[i];
      }
    }
  }

  lemma {:induction false} ParentIsAbove(parent: Bytes, path: Bytes)
    requires IsParentPath(parent, path)
    ensures Below(path, parent) && path != parent
  {
  }

  /** A sibling of the requested path, or of one above it, is not concerned. */
  lemma {:induction false} SiblingsOutside(dir: Bytes, a: Bytes, b: Bytes, target: Bytes)
    requires IsChild(dir, a) && IsChild(dir, b) && a != b && Below(target, a)
    ensures !InScope(b, target)
  {
    if Below(target, b) { ChildrenDisjoint(dir, a, b, target); }
    if Below(b, target) { BelowTrans(b, target, a); ChildrenDisjoint(dir, a, b, b); }
  }

  /** A request for an absolute path without a trailing slash plans exactly its scope. */
  lemma {:induction false} InitiatePlans(env: Env, disk: Entries, ns: seq<Node>, dir: Bytes, id: nat, path: Bytes, couldExist: bool)
    requires NamedList(ns, dir) && (forall i :: 0 <= i < |ns| ==> Idle(ns[i])) && Closed(disk)
    requires Below(path, dir) && path != dir && !EndsWithSlash(path)
    requires couldExist || forall i :: 0 <= i < |ns| ==> ns[i].path !in disk
    requires InitiateList(env, disk, ns, id, path, couldExist).Some?
    ensures AllPlanned(env, disk, InitiateList(env, disk, ns, id, path, couldExist).value, id, path)
    decreases ns, 0
  {
    hide CheckNode, ComparedHint, Closed, Idle, Named, IsParentPath, RightCore, ExistingState;
    var rs := InitiateList(env, disk, ns, id, path, couldExist).value;
    var n := ns[0];
    assert forall i :: 1 <= i < |ns| ==> ns[1..][i - 1] == ns[i];
    if n.path == path || IsParentPath(n.path, path) {
      var s := ExistingState(n, id).value;
      if n.path == path {
        CheckPlans(env, disk, n, s, id, couldExist, path);
      } else {
        ParentIsAbove(n.path, path);
        PlansAbove(env, disk, n, s, id, path, couldExist);
      }
      forall i | 1 <= i < |ns| ensures rs[i] == ns[i] && Planned(env, disk, rs[i], id, path) {
        SiblingsOutside(dir, n.path, ns[i].path, path);
      }
    } else {
      InitiatePlans(env, disk, ns[1..], dir, id, path, couldExist);
      PassedBy(dir, n.path, path);
      var rest := InitiateList(env, disk, ns[1..], id, path, couldExist).value;
      forall i | 0 <= i < |rs| ensures Planned(env, disk, rs[i], id, path) {
        if i > 0 { assert rs[i] == rest[i - 1]; }
      }
    }
  }

  /** The node above the requested path and what is planned inside it. */
  lemma {:induction false} PlansAbove(env: Env, disk: Entries, n: Node, s: PathState, id: nat, path: Bytes, couldExist: bool)
    requires Idle(n) && Named(n) && Closed(disk) && ExistingState(n, id) == Some(s) && s.Directory?
    requires Below(path, n.path) && path != n.path && !EndsWithSlash(path) && (couldExist || n.path !in disk)
    requires InitiateList(env, disk, n.subs, id, path, couldExist && !Replaced(CheckedHint(env, disk, n, s, couldExist))).Some?
    ensures var h := CheckedHint(env, disk, n, s, couldExist);
      Planned(env, disk, n.(hint := h, subs := InitiateList(env, disk, n.subs, id, path, couldExist && !Replaced(h)).value), id, path)
    decreases n.subs, 1
  {
    hide CheckNode, ComparedHint, Closed;
    ChildrenGone(env, disk, n, s, couldExist);
    var h := CheckedHint(env, disk, n, s, couldExist);
    InitiatePlans(env, disk, n.subs, n.path, id, path, couldExist && !Replaced(h));
    var r := n.(hint := h, subs := InitiateList(env, disk, n.subs, id, path, couldExist && !Replaced(h)).value);
    assert ExistingState(r, id) == Some(s);
  }

  lemma {:induction false} PassedBy(dir: Bytes, p: Bytes, path: Bytes)
    requires IsChild(dir, p) && Below(path, dir) && path != dir && !EndsWithSlash(path)
    requires p != path && !IsParentPath(p, path)
    ensures !InScope(p, path)
  {
  }

  // ----- the target -----

  function StoredContent(blobs: Blobs, i: FileInfo): Bytes {
    if i.size <= FILE_HASH_SIZE then i.hash[..i.size] else if PathOf(i) in blobs then blobs[PathOf(i)] else []
  }

  /** The entry is what the state records, to the last attribute. */
  predicate Matches(blobs: Blobs, s: PathState, e: Entry) {
    match s
    case NonExisting => false
    case RegularFile(u, g, i) => e.File? && e == File(u, g, i.mode, i.mtime, e.content) && e.content == StoredContent(blobs, i)
    case Symlink(u, g, t) => e == Link(u, g, t)
    case Directory(u, g, m, t) => e == Dir(u, g, m, t)
  }

  function ModeOf(s: PathState): U32
    requires s.RegularFile? || s.Directory?
  {
    if s.RegularFile? then s.info.mode else s.mode
  }

  function MtimeOf(s: PathState): I64
    requires s.RegularFile? || s.Directory?
  {
    if s.RegularFile? then s.info.mtime else s.mtime
  }

  /** Owner and permissions are as recorded. */
  predicate Attributed(s: PathState, e: Entry)
    requires SameType(s, e)
  {
    s.uid == e.uid && s.gid == e.gid && (!s.Symlink? ==> e.mode == ModeOf(s))
  }

  predicate HasContent(blobs: Blobs, s: PathState, e: Entry)
    requires SameType(s, e)
  {
    (s.RegularFile? ==> e.content == StoredContent(blobs, s.info)) && (s.Symlink? ==> e.target == s.target)
  }

  predicate RestoredSelf(blobs: Blobs, a: Entries, n: Node, s: PathState) {
    && n.path in a && SameType(s, a[n.path])
    && (n.policy != NoPolicy ==> Matches(blobs, s, a[n.path]))
  }

  /** Every path of the scope that existed at the id, and is reached through directories that existed
      at the id, is restored. */
  ghost predicate Restored(blobs: Blobs, a: Entries, n: Node, id: nat, target: Bytes)
    decreases n
  {
    InScope(n.path, target) && ExistingState(n, id).Some? ==>
      var s := ExistingState(n, id).value;
      && RestoredSelf(blobs, a, n, s)
      && (s.Directory? ==> forall i :: 0 <= i < |n.subs| ==> Restored(blobs, a, n.subs[i], id, target))
  }

  /** What restoring one path relies on: its content can be read, no symlink sits where a file or a
      directory belongs, and a file whose content differs also differs in size, or in time and hash. */
  ghost predicate FairSelf(env: Env, blobs: Blobs, disk: Entries, path: Bytes, s: PathState) {
    && (s.RegularFile? ==> |StoredContent(blobs, s.info)| == s.info.size)
    && (path in disk && !s.Symlink? ==> !disk[path].Link?)
    && (path in disk && disk[path].File? && s.RegularFile? && s.info.size == |disk[path].content|
        && (s.info.mtime == disk[path].mtime || s.info.hash[..IdentityLength(s.info.size)] == Identity(env, disk[path].content))
        ==> disk[path].content == StoredContent(blobs, s.info))
  }

  ghost predicate Fair(env: Env, blobs: Blobs, disk: Entries, n: Node, id: nat, target: Bytes)
    decreases n
  {
    InScope(n.path, target) && ExistingState(n, id).Some? ==>
      var s := ExistingState(n, id).value;
      && FairSelf(env, blobs, disk, n.path, s)
      && (s.Directory? ==> forall i :: 0 <= i < |n.subs| ==> Fair(env, blobs, disk, n.subs[i], id, target))
  }

  // ----- frames -----

  /** Plans, hypotheses and results for a node only depend on what is at and below its path. */
  lemma {:induction false} Framed(env: Env, blobs: Blobs, a: Entries, b: Entries, n: Node, id: nat, target: Bytes)
    requires Named(n) && Agree(a, b, n.path)
    ensures Planned(env, a, n, id, target) ==> Planned(env, b, n, id, target)
    ensures Fair(env, blobs, a, n, id, target) ==> Fair(env, blobs, b, n, id, target)
    ensures Restored(blobs, a, n, id, target) ==> Restored(blobs, b, n, id, target)
    decreases n
  {
    hide ComparedHint, Idle, Matches, ExistingState, StoredContent, Identity;
    assert SameAt(a, b, n.path);
    forall i | 0 <= i < |n.subs|
      ensures Planned(env, a, n.subs[i], id, target) ==> Planned(env, b, n.subs[i], id, target)
      ensures Fair(env, blobs, a, n.subs[i], id, target) ==> Fair(env, blobs, b, n.subs[i], id, target)
      ensures Restored(blobs, a, n.subs[i], id, target) ==> Restored(blobs, b, n.subs[i], id, target)
    {
      AgreeInside(a, b, n.path, n.subs[i].path);
      Framed(env, blobs, a, b, n.subs[i], id, target);
    }
  }

  lemma {:induction false} AgreeInside(a: Entries, b: Entries, dir: Bytes, path: Bytes)
    requires IsChild(dir, path) && Agree(a, b, dir)
    ensures Agree(a, b, path)
  {
    forall p | Below(p, path) ensures SameAt(a, b, p) {
      ChildBelow(dir, path);
      BelowTrans(p, path, dir);
    }
  }

  /** Nothing outside the scope is touched. */
  ghost predicate Spared(a: Entries, b: Entries, target: Bytes) { forall p :: !InScope(p, target) ==> SameAt(a, b, p) }

  lemma {:induction false} SparedTrans(a: Entries, b: Entries, c: Entries, target: Bytes)
    requires Spared(a, b, target) && Spared(b, c, target)
    ensures Spared(a, c, target)
  {
    forall p | !InScope(p, target) ensures SameAt(a, c, p) {
      assert SameAt(a, b, p) && SameAt(b, c, p);
    }
  }

  /** Changes at and below one path of the scope stay in the scope. */
  lemma {:induction false} ContainedIsSpared(a: Entries, b: Entries, path: Bytes, target: Bytes)
    requires Proper(path) && InScope(path, target) && Contained(a, b, DirOf(path), path)
    requires !Below(path, target) ==> forall p :: Below(p, path) && p != path ==> SameAt(a, b, p)
    ensures Spared(a, b, target)
  {
    ChildBelow(DirOf(path), path);
    ScopeUpwards(DirOf(path), path, target);
    forall p | !InScope(p, target) ensures SameAt(a, b, p) {
      if Below(p, path) && Below(path, target) { BelowTrans(p, path, target); }
    }
  }

  // ----- what stays -----

  /** Restoring the path itself changes its directory: something is created there, or replaced. */
  predicate DisturbsSelf(a: Entries, n: Node, s: PathState) {
    || n.path !in a || !SameType(s, a[n.path])
    || (n.policy != NoPolicy && s.Symlink? && a[n.path].target != s.target)
  }

  predicate Disturbs(a: Entries, n: Node, id: nat, target: Bytes) {
    InScope(n.path, target) && ExistingState(n, id).Some? && DisturbsSelf(a, n, ExistingState(n, id).value)
  }

  predicate Quiet(a: Entries, ns: seq<Node>, id: nat, target: Bytes) { forall i :: 0 <= i < |ns| ==> !Disturbs(a, ns[i], id, target) }

  /** A path without policy keeps everything but its time, and the time, too, if nothing is created or
      replaced directly in it. */
  ghost predicate LeftSelf(a: Entries, b: Entries, n: Node, s: PathState, id: nat, target: Bytes) {
    if s.Directory? && !Quiet(a, n.subs, id, target) then SameButTime(a, b, n.path) else SameAt(a, b, n.path)
  }

  /** What restoring a node leaves of the entries at and below its path. What is not to be restored stays; a
      path that is there with the recorded type is not replaced, and keeps its entry if it has no policy;
      and this holds for everything inside it, as well. */
  ghost predicate Left(a: Entries, b: Entries, n: Node, id: nat, target: Bytes)
    decreases n
  {
    if !InScope(n.path, target) || ExistingState(n, id).None? then Agree(a, b, n.path)
    else
      var s := ExistingState(n, id).value;
      n.path in a && SameType(s, a[n.path]) ==>
        && (n.policy.NoPolicy? ==> LeftSelf(a, b, n, s, id, target))
        && (s.Directory? ==> Beside(a, b, n.subs, n.path) && forall i :: 0 <= i < |n.subs| ==> Left(a, b, n.subs[i], id, target))
  }

  /** What a directory holds besides the given nodes stays. */
  ghost predicate Beside(a: Entries, b: Entries, ns: seq<Node>, dir: Bytes) {
    forall p :: Below(p, dir) && p != dir && (forall i :: 0 <= i < |ns| ==> !Below(p, ns[i].path)) ==> SameAt(a, b, p)
  }

  ghost predicate AllLeft(a: Entries, b: Entries, ns: seq<Node>, dir: Bytes, id: nat, target: Bytes) {
    Beside(a, b, ns, dir) && forall i :: 0 <= i < |ns| ==> Left(a, b, ns[i], id, target)
  }

  lemma {:induction false} DisturbsFramed(a: Entries, b: Entries, n: Node, id: nat, target: Bytes)
    requires SameAt(a, b, n.path)
    ensures Disturbs(a, n, id, target) <==> Disturbs(b, n, id, target)
  {
    hide ExistingState;
  }

  lemma {:induction false} AgreeHere(a: Entries, b: Entries, path: Bytes)
    requires Agree(a, b, path)
    ensures SameAt(a, b, path)
  {
    assert Below(path, path);
  }

  /** It only depends on what is at and below the path. */
  lemma {:induction false} LeftFramed(a: Entries, b: Entries, c: Entries, d: Entries, n: Node, id: nat, target: Bytes)
    requires Named(n) && Agree(a, c, n.path) && Agree(b, d, n.path) && Left(a, b, n, id, target)
    ensures Left(c, d, n, id, target)
    decreases n
  {
    hide ExistingState, InScope, IsChild, Below, DisturbsSelf;
    AgreeHere(a, c, n.path);
    AgreeHere(b, d, n.path);
    if !InScope(n.path, target) || ExistingState(n, id).None? {
      AgreeTwice(a, b, c, d, n.path);
    } else if n.path in c && SameType(ExistingState(n, id).value, c[n.path]) {
      forall i | 0 <= i < |n.subs|
        ensures Disturbs(a, n.subs[i], id, target) <==> Disturbs(c, n.subs[i], id, target)
        ensures Left(a, b, n.subs[i], id, target) ==> Left(c, d, n.subs[i], id, target)
      {
        AgreeInside(a, c, n.path, n.subs[i].path);
        AgreeInside(b, d, n.path, n.subs[i].path);
        AgreeHere(a, c, n.subs[i].path);
        DisturbsFramed(a, c, n.subs[i], id, target);
        if Left(a, b, n.subs[i], id, target) { LeftFramed(a, b, c, d, n.subs[i], id, target); }
      }
      assert Beside(a, b, n.subs, n.path) ==> Beside(c, d, n.subs, n.path);
    }
  }

  lemma {:induction false} AgreeTwice(a: Entries, b: Entries, c: Entries, d: Entries, path: Bytes)
    requires Agree(a, c, path) && Agree(b, d, path) && Agree(a, b, path)
    ensures Agree(c, d, path)
  {
    forall p | Below(p, path) ensures SameAt(c, d, p) { assert SameAt(a, c, p) && SameAt(b, d, p) && SameAt(a, b, p); }
  }

  lemma {:induction false} NothingLeft(a: Entries, ns: seq<Node>, dir: Bytes)
    ensures Beside(a, a, ns, dir)
    ensures forall path :: Agree(a, a, path)
  {
  }

  // ----- executing -----

  /** The changes that restoring one path makes, besides the path itself. */
  ghost predicate SelfEffect(a: Entries, b: Entries, path: Bytes, affects: bool) {
    && Contained(a, b, DirOf(path), path)
    && (!affects ==> OnlyAt(a, b, path))
  }

  class Restorer {
    const env: Env
    const blobs: Blobs
    const disk: Disk

    constructor (env: Env, blobs: Blobs, disk: Disk)
      ensures this.env == env && this.blobs == blobs && this.disk == disk
    {
      this.env, this.blobs, this.disk := env, blobs, disk;
    }

    ghost predicate Valid() reads this, disk { disk.Valid() }

    /** restoreFile(): opens the file for writing and copies the stored content block by block. */
    method RestoreFile(path: Bytes, i: FileInfo)
      requires Valid() && Proper(path) && IsDir(disk.entries, DirOf(path))
      requires path in disk.entries ==> disk.entries[path].File?
      requires |StoredContent(blobs, i)| == i.size
      modifies disk
      ensures Valid() && path in disk.entries && disk.entries[path].File? && disk.entries[path].content == StoredContent(blobs, i)
      ensures path !in old(disk.entries) ==> Contained(old(disk.entries), disk.entries, DirOf(path), path)
      ensures path in old(disk.entries) ==>
        OnlyAt(old(disk.entries), disk.entries, path) && SameFile(old(disk.entries[path]), disk.entries[path])
      ensures Bare(disk.entries, path)
    {
      hide Closed, PathOf;
      disk.OpenWrite(path);
      ghost var emptied := disk.entries;
      if i.size > FILE_HASH_SIZE {
        var stored := StoredContent(blobs, i);
        var bytesLeft := i.size;
        while bytesLeft > 0
          invariant 0 <= bytesLeft <= i.size && Valid()
          invariant path in disk.entries && disk.entries[path].File?
          invariant disk.entries[path].content == stored[..i.size - bytesLeft]
          invariant OnlyAt(emptied, disk.entries, path) && SameFile(emptied[path], disk.entries[path])
        {
          var bytesToRead := if bytesLeft > 4096 then 4096 else bytesLeft;
          var at := i.size - bytesLeft;
          assert stored[..at] + stored[at..at + bytesToRead] == stored[..at + bytesToRead];
          ghost var before := disk.entries;
          disk.Append(path, stored[at..at + bytesToRead]);
          OnlyAtTrans(emptied, before, disk.entries, path);
          bytesLeft := bytesLeft - bytesToRead;
        }
        assert stored[..i.size] == stored;
      } else {
        disk.Append(path, i.hash[..i.size]);
      }
      WriteKeepsFrame(old(disk.entries), emptied, disk.entries, path);
    }

    /** restorePath() for a path that does not exist. */
    method RestorePath(path: Bytes, s: PathState)
      requires Valid() && Proper(path) && IsDir(disk.entries, DirOf(path)) && path !in disk.entries
      requires !s.NonExisting? && (s.RegularFile? ==> |StoredContent(blobs, s.info)| == s.info.size)
      modifies disk
      ensures Valid() && Contained(old(disk.entries), disk.entries, DirOf(path), path)
      ensures path in disk.entries && Matches(blobs, s, disk.entries[path])
      ensures Bare(disk.entries, path)
    {
      hide Closed, StoredContent, Contained, OnlyAt, Bare, IsChild, DirOf;
      ghost var start := disk.entries;
      if s.RegularFile? {
        RestoreFile(path, s.info);
        ghost var made := disk.entries;
        disk.Chown(path, s.uid, s.gid);
        WriteKeepsFrame(start, made, disk.entries, path);
        made := disk.entries;
        disk.Chmod(path, s.info.mode);
        WriteKeepsFrame(start, made, disk.entries, path);
        made := disk.entries;
        disk.Utime(path, s.info.mtime);
        WriteKeepsFrame(start, made, disk.entries, path);
      } else if s.Symlink? {
        disk.Symlink(s.target, path);
        ghost var made := disk.entries;
        disk.Chown(path, s.uid, s.gid);
        WriteKeepsFrame(start, made, disk.entries, path);
      } else {
        disk.Mkdir(path);
        ghost var made := disk.entries;
        disk.Chown(path, s.uid, s.gid);
        WriteKeepsFrame(start, made, disk.entries, path);
        made := disk.entries;
        disk.Chmod(path, s.mode);
        WriteKeepsFrame(start, made, disk.entries, path);
        made := disk.entries;
        disk.Utime(path, s.mtime);
        WriteKeepsFrame(start, made, disk.entries, path);
      }
    }

    /** Repairs the attributes that differ, for a path with a policy. */
    method RepairPath(n: Node, s: PathState) returns (affects: bool)
      requires Valid() && Proper(n.path) && IsDir(disk.entries, DirOf(n.path)) && !s.NonExisting?
      requires n.path in disk.entries && SameType(s, disk.entries[n.path]) && FairSelf(env, blobs, disk.entries, n.path, s)
      requires n.hint.core == ComparedHint(env, NoHint, s, disk.entries[n.path]).core
      modifies disk
      ensures Valid() && SelfEffect(old(disk.entries), disk.entries, n.path, affects)
      ensures n.path in disk.entries && Matches(blobs, s, disk.entries[n.path])
      ensures s.Directory? ==> OnlyAt(old(disk.entries), disk.entries, n.path)
      ensures affects ==> s.Symlink? && old(disk.entries[n.path]).target != s.target
    {
      assert s.RegularFile? ==> |StoredContent(blobs, s.info)| == s.info.size;
      hide Closed, StoredContent, Contained, OnlyAt, Bare, IsChild, DirOf, ComparedHint, FairSelf;
      var path := n.path;
      ghost var start := disk.entries;
      FlagsMean(env, blobs, start, path, s);
      NoEffect(start, path);
      ghost var before := start;
      if Has(n.hint, OwnerChanged) {
        disk.Chown(path, s.uid, s.gid);
        WriteKeepsFrame(start, before, disk.entries, path);
        before := disk.entries;
      }
      if Has(n.hint, PermissionsChanged) && !s.Symlink? {
        disk.Chmod(path, ModeOf(s));
        WriteKeepsFrame(start, before, disk.entries, path);
        before := disk.entries;
      }
      OnlyAtIsContained(start, before, path);
      affects := RepairContent(n, s);
      if affects { ReplacedAfter(start, before, disk.entries, path); } else { OnlyAtTrans(start, before, disk.entries, path); }
      if !affects { OnlyAtIsContained(start, disk.entries, path); }
    }

    /** Repairs the content and the modification time, once owner and permissions are right. */
    method RepairContent(n: Node, s: PathState) returns (affects: bool)
      requires Valid() && Proper(n.path) && IsDir(disk.entries, DirOf(n.path)) && !s.NonExisting?
      requires n.path in disk.entries && SameType(s, disk.entries[n.path]) && n.hint.core.Flags?
      requires s.RegularFile? ==> |StoredContent(blobs, s.info)| == s.info.size
      requires Attributed(s, disk.entries[n.path]) && (s.Directory? ==> !n.hint.core.content)
      requires !n.hint.core.content ==> HasContent(blobs, s, disk.entries[n.path])
      requires !n.hint.core.timestamp && !s.Symlink? ==> disk.entries[n.path].mtime == MtimeOf(s)
      modifies disk
      ensures Valid() && SelfEffect(old(disk.entries), disk.entries, n.path, affects)
      ensures n.path in disk.entries && Matches(blobs, s, disk.entries[n.path])
      ensures affects ==> s.Symlink? && n.hint.core.content
    {
      hide Closed, StoredContent, Contained, OnlyAt, Bare, IsChild, DirOf;
      var path := n.path;
      ghost var start := disk.entries;
      NoEffect(start, path);
      affects := false;
      if Has(n.hint, ContentChanged) {
        if s.RegularFile? {
          RestoreFile(path, s.info);
          ghost var made := disk.entries;
          disk.Utime(path, s.info.mtime);
          WriteKeepsFrame(start, made, disk.entries, path);
        } else if s.Symlink? {
          Replace(path, s, false);
          affects := true;
        }
      } else if Has(n.hint, TimestampChanged) && !s.Symlink? {
        disk.Utime(path, MtimeOf(s));
      }
      if !affects { OnlyAtIsContained(start, disk.entries, path); }
    }

    /** Removes what is at the path and restores it. */
    method Replace(path: Bytes, s: PathState, recursively: bool)
      requires Valid() && Proper(path) && path in disk.entries && recursively == IsDir(disk.entries, path)
      requires !s.NonExisting? && (s.RegularFile? ==> |StoredContent(blobs, s.info)| == s.info.size)
      modifies disk
      ensures Valid() && Contained(old(disk.entries), disk.entries, DirOf(path), path)
      ensures path in disk.entries && Matches(blobs, s, disk.entries[path]) && Bare(disk.entries, path)
      ensures !old(IsDir(disk.entries, path)) ==> Bare(old(disk.entries), path)
    {
      hide Closed, StoredContent, Matches, IsChild, DirOf;
      ghost var start := disk.entries;
      if !IsDir(start, path) { NothingBelow(start, path); }
      if recursively { disk.RemoveRecursively(path); } else { disk.Remove(path); }
      ghost var removed := disk.entries;
      assert path !in removed by { assert Below(path, path); }
      RestorePath(path, s);
      ContainedTrans(start, removed, disk.entries, path);
    }

    /** The part of finishRestoreRecursively() that deals with the path itself. */
    method FinishSelf(n: Node, s: PathState, ghost target: Bytes) returns (affects: bool)
      requires Valid() && Proper(n.path) && !s.NonExisting?
      requires if InScope(n.path, target) then SelfReady(env, blobs, disk.entries, n, s) else n.hint == NoHint
      modifies disk
      ensures Valid()
      ensures n.hint.core == NoFlags ==> disk.entries == old(disk.entries) && !affects
      ensures InScope(n.path, target) ==>
        && SelfEffect(old(disk.entries), disk.entries, n.path, affects)
        && RestoredSelf(blobs, disk.entries, n, s)
        && (s.Directory? ==> InsideSame(old(disk.entries), disk.entries, n.path))
        && (affects ==> DisturbsSelf(old(disk.entries), n, s))
        && (n.policy.NoPolicy? && n.path in old(disk.entries) && SameType(s, old(disk.entries[n.path])) ==> disk.entries == old(disk.entries))
    {
      assert InScope(n.path, target) && s.RegularFile? ==> |StoredContent(blobs, s.info)| == s.info.size;
      hide Closed, StoredContent, Matches, IsChild, DirOf, ComparedHint, FairSelf, Contained, OnlyAt, Bare, InsideSame;
      ghost var start := disk.entries;
      if InScope(n.path, target) { CoreMeans(env, start, n.path, s); }
      affects := false;
      if IsKind(n.hint, Added) {
        RestorePath(n.path, s);
        affects := true;
        if s.Directory? { NothingBelow(start, n.path); BareBoth(start, disk.entries, n.path); }
      } else if Replaced(n.hint) {
        Replace(n.path, s, IsKind(n.hint, DirectoryToRegular) || IsKind(n.hint, DirectoryToSymlink));
        affects := true;
        if s.Directory? { BareBoth(start, disk.entries, n.path); }
      } else if n.policy != NoPolicy && n.hint.core != NoFlags {
        affects := RepairPath(n, s);
        if s.Directory? { OnlyAtInside(start, disk.entries, n.path); }
      } else if InScope(n.path, target) {
        NoEffect(start, n.path);
        OnlyAtIsContained(start, start, n.path);
        OnlyAtInside(start, start, n.path);
        NothingToDo(env, blobs, start, n, s);
      }
    }

    /** finishRestoreRecursively() */
    method FinishNode(n: Node, id: nat, ghost target: Bytes) returns (affects: bool)
      requires Valid() && Named(n) && Proper(n.path) && (InScope(n.path, target) ==> IsDir(disk.entries, DirOf(n.path)))
      requires Planned(env, disk.entries, n, id, target) && Fair(env, blobs, disk.entries, n, id, target)
      modifies disk
      ensures Valid() && Restored(blobs, disk.entries, n, id, target)
      ensures SubEffect(old(disk.entries), disk.entries, n.path, affects) && Spared(old(disk.entries), disk.entries, target)
      ensures Idle(n) ==> disk.entries == old(disk.entries) && !affects
      ensures Left(old(disk.entries), disk.entries, n, id, target) && (affects ==> Disturbs(old(disk.entries), n, id, target))
      decreases n, 1
    {
      hide Left, Beside, DisturbsSelf, Quiet, Closed, StoredContent, Matches, IsChild, DirOf, RightCore, FairSelf, Contained, OnlyAt, InsideSame, SelfEffect, SubEffect, Spared, ListEffect, Planned, Fair, Restored;
      affects := false;
      ghost var start := disk.entries;
      NoEffects(start, n.path, target);
      SelfIsReady(env, blobs, start, n, id, target);
      var s := ExistingState(n, id);
      if s.None? {
        LeftWhenIdle(start, n, id, target);
        return;
      }
      affects := FinishSelf(n, s.value, target);
      ghost var mid := disk.entries;
      if InScope(n.path, target) { SelfIsSub(env, blobs, start, mid, n, s.value, id, target, affects); }
      if s.value.Directory? {
        InsideReady(env, blobs, start, mid, n, s.value, id, target);
        var changed := FinishList(n.subs, n.path, id, target);
        ghost var done := disk.entries;
        if changed && n.policy != NoPolicy {
          DirectoryStays(mid, done, n.path, changed);
          disk.Utime(n.path, s.value.mtime);
        }
        Settled(env, blobs, start, mid, done, disk.entries, n, s.value, id, target, affects, changed);
        if InScope(n.path, target) {
          SettledKeeps(start, mid, done, disk.entries, n, s.value, id, target, changed);
        }
      } else {
        SelfIsAll(env, blobs, mid, n, s.value, id, target);
        if InScope(n.path, target) { FileKeeps(start, mid, n, s.value, id, target); }
      }
      if !InScope(n.path, target) { LeftWhenIdle(start, n, id, target); }
    }

    /** The loop over the subnodes of a directory, and over the top-level nodes. */
    method FinishList(ns: seq<Node>, ghost dir: Bytes, id: nat, ghost target: Bytes) returns (changed: bool)
      requires Valid() && NamedList(ns, dir)
      requires (exists i :: 0 <= i < |ns| && InScope(ns[i].path, target)) ==> IsDir(disk.entries, dir)
      requires AllPlanned(env, disk.entries, ns, id, target) && AllFair(env, blobs, disk.entries, ns, id, target)
      modifies disk
      ensures Valid() && AllRestored(blobs, disk.entries, ns, id, target)
      ensures ListEffect(old(disk.entries), disk.entries, dir, changed) && Spared(old(disk.entries), disk.entries, target)
      ensures (forall i :: 0 <= i < |ns| ==> Idle(ns[i])) ==> disk.entries == old(disk.entries) && !changed
      ensures AllLeft(old(disk.entries), disk.entries, ns, dir, id, target)
      ensures changed ==> !Quiet(old(disk.entries), ns, id, target)
      decreases ns, 0
    {
      hide Left, Beside, Agree, Disturbs, Closed, IsChild, DirOf, Contained, SubEffect, Spared, ListEffect, Planned, Fair, Restored, Named, Idle, SameAt, SameButTime;
      changed := false;
      ghost var start := disk.entries;
      NoEffects(start, dir, target);
      NothingLeft(start, ns, dir);
      var i := 0;
      while i < |ns|
        invariant 0 <= i <= |ns| && Valid()
        invariant Beside(start, disk.entries, ns, dir) && (changed ==> !Quiet(start, ns, id, target))
        invariant forall j :: 0 <= j < i ==> Left(start, disk.entries, ns[j], id, target)
        invariant forall j :: i <= j < |ns| ==> Agree(start, disk.entries, ns[j].path)
        invariant ListEffect(start, disk.entries, dir, changed) && Spared(start, disk.entries, target)
        invariant forall j :: 0 <= j < i ==> Restored(blobs, disk.entries, ns[j], id, target)
        invariant forall j :: i <= j < |ns| ==> Planned(env, disk.entries, ns[j], id, target) && Fair(env, blobs, disk.entries, ns[j], id, target)
        invariant (forall j :: 0 <= j < |ns| ==> Idle(ns[j])) ==> disk.entries == start && !changed
      {
        ghost var before := disk.entries;
        ChildIsProper(dir, ns[i].path);
        DirectoryStays(start, before, dir, changed);
        var affects := FinishNode(ns[i], id, target);
        OneMoreChild(env, blobs, start, before, disk.entries, ns, i, dir, id, target, changed, affects);
        OneMoreLeft(start, before, disk.entries, ns, i, dir, id, target, affects);
        changed := changed || affects;
        i := i + 1;
      }
    }
  }

  ghost predicate SelfReady(env: Env, blobs: Blobs, a: Entries, n: Node, s: PathState) {
    IsDir(a, DirOf(n.path)) && FairSelf(env, blobs, a, n.path, s) && n.hint.core == RightCore(env, a, n.path, s)
  }

  /** The hint tells whether something has to be removed, and whether that is a directory. */
  lemma {:induction false} CoreMeans(env: Env, a: Entries, path: Bytes, s: PathState)
    requires !s.NonExisting?
    ensures var core := RightCore(env, a, path, s);
      && (core == Exclusive(Added) <==> path !in a)
      && (path in a ==> (Replaced(Hint(core, false, false)) <==> !SameType(s, a[path])))
      && (path in a && !SameType(s, a[path]) ==>
        (IsDir(a, path) <==> core == Exclusive(DirectoryToRegular) || core == Exclusive(DirectoryToSymlink)))
  {
    if path in a {
      ComparedCore(env, NoHint, s, a[path]);
      if s.RegularFile? && a[path].File? {
        FileFlags(env, FlagIf(NoHint, s.uid != a[path].uid || s.gid != a[path].gid, OwnerChanged), s.info, a[path]);
      }
    }
  }

  lemma {:induction false} BareBoth(a: Entries, b: Entries, path: Bytes)
    requires Bare(a, path) && Bare(b, path)
    ensures InsideSame(a, b, path)
  {
  }

  lemma {:induction false} OnlyAtInside(a: Entries, b: Entries, path: Bytes)
    requires OnlyAt(a, b, path)
    ensures InsideSame(a, b, path)
  {
  }

  lemma {:induction false} NothingToDo(env: Env, blobs: Blobs, a: Entries, n: Node, s: PathState)
    requires SelfReady(env, blobs, a, n, s) && !s.NonExisting? && n.path in a && SameType(s, a[n.path])
    requires n.policy != NoPolicy ==> n.hint.core == NoFlags
    ensures RestoredSelf(blobs, a, n, s)
  {
    hide StoredContent, ComparedHint;
    FlagsMean(env, blobs, a, n.path, s);
  }

  ghost predicate InsideSame(a: Entries, b: Entries, path: Bytes) {
    forall p :: Below(p, path) && p != path ==> SameAt(a, b, p)
  }

  /** What restoring a path with everything below it leaves alone. */
  ghost predicate SubEffect(a: Entries, b: Entries, path: Bytes, affects: bool) {
    if affects then Contained(a, b, DirOf(path), path) else forall p :: !Below(p, path) ==> SameAt(a, b, p)
  }

  /** What restoring the contents of a directory leaves alone. */
  ghost predicate ListEffect(a: Entries, b: Entries, dir: Bytes, changed: bool) {
    && (forall p :: !Below(p, dir) ==> SameAt(a, b, p))
    && if changed then SameButTime(a, b, dir) else SameAt(a, b, dir)
  }

  ghost predicate AllFair(env: Env, blobs: Blobs, a: Entries, ns: seq<Node>, id: nat, target: Bytes) {
    forall i :: 0 <= i < |ns| ==> Fair(env, blobs, a, ns[i], id, target)
  }

  ghost predicate AllRestored(blobs: Blobs, a: Entries, ns: seq<Node>, id: nat, target: Bytes) {
    forall i :: 0 <= i < |ns| ==> Restored(blobs, a, ns[i], id, target)
  }

  lemma {:induction false} NoEffect(a: Entries, path: Bytes)
    ensures OnlyAt(a, a, path)
  {
  }

  lemma {:induction false} OnlyAtIsContained(a: Entries, b: Entries, path: Bytes)
    requires Proper(path) && OnlyAt(a, b, path) && IsDir(a, DirOf(path))
    ensures Contained(a, b, DirOf(path), path) && IsDir(b, DirOf(path))
  {
    ChildBelow(DirOf(path), path);
    assert SameAt(a, b, DirOf(path));
  }

  lemma {:induction false} ContainedTrans(a: Entries, b: Entries, c: Entries, path: Bytes)
    requires Contained(a, b, DirOf(path), path) && Contained(b, c, DirOf(path), path)
    ensures Contained(a, c, DirOf(path), path)
  {
    forall p | !Below(p, path) && p != DirOf(path) ensures SameAt(a, c, p) {
      assert SameAt(a, b, p) && SameAt(b, c, p);
    }
  }

  lemma {:induction false} ReplacedAfter(a: Entries, b: Entries, c: Entries, path: Bytes)
    requires Proper(path) && OnlyAt(a, b, path) && Contained(b, c, DirOf(path), path)
    ensures Contained(a, c, DirOf(path), path)
  {
    ChildBelow(DirOf(path), path);
    assert SameAt(a, b, DirOf(path));
    forall p | !Below(p, path) && p != DirOf(path) ensures SameAt(a, c, p) {
      assert SameAt(a, b, p) && SameAt(b, c, p);
    }
  }

  /** What the flags say about an entry of the right type. */
  lemma {:induction false} FlagsMean(env: Env, blobs: Blobs, a: Entries, path: Bytes, s: PathState)
    requires path in a && SameType(s, a[path]) && FairSelf(env, blobs, a, path, s)
    ensures var e := a[path];
      var core := ComparedHint(env, NoHint, s, e).core;
      && core.Flags?
      && (!core.owner ==> s.uid == e.uid && s.gid == e.gid)
      && (!core.permissions && !s.Symlink? ==> e.mode == if s.RegularFile? then s.info.mode else s.mode)
      && (!core.timestamp && !s.Symlink? ==> e.mtime == if s.RegularFile? then s.info.mtime else s.mtime)
      && (s.RegularFile? && !core.content ==> e.content == StoredContent(blobs, s.info))
      && (s.Symlink? ==> (core.content <==> e.target != s.target))
      && (s.Directory? ==> !core.content)
  {
    hide StoredContent, Identity;
    var e := a[path];
    if s.RegularFile? { FileFlagsMean(env, FlagIf(NoHint, s.uid != e.uid || s.gid != e.gid, OwnerChanged), s.info, e); }
  }

  lemma {:induction false} FileFlagsMean(env: Env, h: Hint, i: FileInfo, e: Entry)
    requires e.File? && h.core.Flags? && !h.core.permissions && !h.core.timestamp && !h.core.content
    ensures var g := ApplyFileChanges(env, h, i, e).0;
      && g.core.Flags? && g.core.owner == h.core.owner
      && (g.core.permissions <==> i.mode != e.mode) && (g.core.timestamp <==> i.mtime != e.mtime)
      && (!g.core.content ==>
          && i.size == |e.content|
          && (i.mtime == e.mtime || i.size == 0 || i.hash[..IdentityLength(i.size)] == Identity(env, e.content)))
  {
    hide Identity;
  }

  lemma {:induction false} OnlyAtTrans(a: Entries, b: Entries, c: Entries, path: Bytes)
    requires OnlyAt(a, b, path) && OnlyAt(b, c, path)
    ensures OnlyAt(a, c, path)
  {
    forall p | p != path ensures SameAt(a, c, p) {
      assert SameAt(a, b, p) && SameAt(b, c, p);
    }
  }

  /** Writing to an entry that was just created stays below its directory. */
  lemma {:induction false} WriteKeepsFrame(a: Entries, b: Entries, c: Entries, path: Bytes)
    requires Proper(path) && OnlyAt(b, c, path)
    ensures OnlyAt(a, b, path) ==> OnlyAt(a, c, path)
    ensures Contained(a, b, DirOf(path), path) ==> Contained(a, c, DirOf(path), path)
    ensures Bare(b, path) ==> Bare(c, path)
  {
    ChildBelow(DirOf(path), path);
    if OnlyAt(a, b, path) { OnlyAtTrans(a, b, c, path); }
    assert SameAt(b, c, DirOf(path));
    if Contained(a, b, DirOf(path), path) {
      forall p | !Below(p, path) && p != DirOf(path) ensures SameAt(a, c, p) {
        assert SameAt(a, b, p) && SameAt(b, c, p);
      }
    }
    if Bare(b, path) {
      forall p | Below(p, path) && p != path ensures p !in c { assert SameAt(b, c, p); }
    }
  }

  // ----- composing the effects -----

  lemma {:induction false} NoEffects(a: Entries, path: Bytes, target: Bytes)
    ensures SubEffect(a, a, path, false) && ListEffect(a, a, path, false) && Spared(a, a, target)
  {
  }

  lemma {:induction false} SelfIsReady(env: Env, blobs: Blobs, a: Entries, n: Node, id: nat, target: Bytes)
    requires Planned(env, a, n, id, target) && Fair(env, blobs, a, n, id, target)
    requires InScope(n.path, target) ==> IsDir(a, DirOf(n.path))
    ensures ExistingState(n, id).None? ==> Restored(blobs, a, n, id, target)
    ensures ExistingState(n, id).Some? ==>
      var s := ExistingState(n, id).value;
      !s.NonExisting? && if InScope(n.path, target) then SelfReady(env, blobs, a, n, s) else Idle(n) && n.hint == NoHint
  {
    hide FairSelf, RightCore;
  }

  /** The path itself was dealt with. */
  lemma {:induction false} SelfIsSub(env: Env, blobs: Blobs, a: Entries, b: Entries, n: Node, s: PathState, id: nat, target: Bytes, affects: bool)
    requires Proper(n.path) && InScope(n.path, target) && SelfEffect(a, b, n.path, affects)
    requires ExistingState(n, id) == Some(s) && Planned(env, a, n, id, target)
    requires s.Directory? ==> InsideSame(a, b, n.path)
    ensures SubEffect(a, b, n.path, affects) && Spared(a, b, target)
  {
    hide IsChild, DirOf, RightCore, Idle, ExistingState;
    if !Below(n.path, target) { assert s.Directory?; }
    ContainedIsSpared(a, b, n.path, target);
    if !affects {
      forall p | !Below(p, n.path) ensures SameAt(a, b, p) {}
    }
  }

  lemma {:induction false} ChildIsProper(dir: Bytes, path: Bytes)
    requires IsChild(dir, path)
    ensures Proper(path) && DirOf(path) == dir
  {
    DirOfChild(dir, path);
  }

  lemma {:induction false} DirectoryStays(a: Entries, b: Entries, dir: Bytes, changed: bool)
    requires ListEffect(a, b, dir, changed)
    ensures changed || IsDir(a, dir) ==> IsDir(b, dir)
  {
  }

  /** The contents of a directory are planned and fair for what the directory has become. */
  lemma {:induction false} InsideReady(env: Env, blobs: Blobs, a: Entries, b: Entries, n: Node, s: PathState, id: nat, target: Bytes)
    requires Named(n) && ExistingState(n, id) == Some(s) && s.Directory?
    requires Planned(env, a, n, id, target) && Fair(env, blobs, a, n, id, target)
    requires if InScope(n.path, target) then InsideSame(a, b, n.path) && RestoredSelf(blobs, b, n, s) else a == b
    ensures NamedList(n.subs, n.path)
    ensures AllPlanned(env, b, n.subs, id, target) && AllFair(env, blobs, b, n.subs, id, target)
    ensures (exists i :: 0 <= i < |n.subs| && InScope(n.subs[i].path, target)) ==> IsDir(b, n.path)
    ensures Idle(n) ==> forall i :: 0 <= i < |n.subs| ==> Idle(n.subs[i])
  {
    hide RightCore, FairSelf, ExistingState, Matches;
    forall i | 0 <= i < |n.subs|
      ensures Planned(env, b, n.subs[i], id, target) && Fair(env, blobs, b, n.subs[i], id, target)
      ensures InScope(n.subs[i].path, target) ==> InScope(n.path, target)
    {
      ChildBelow(n.path, n.subs[i].path);
      if InScope(n.subs[i].path, target) { ScopeUpwards(n.path, n.subs[i].path, target); }
      if InScope(n.path, target) {
        InsideAgrees(a, b, n.path, n.subs[i].path);
        Framed(env, blobs, a, b, n.subs[i], id, target);
      }
    }
  }

  lemma {:induction false} InsideAgrees(a: Entries, b: Entries, dir: Bytes, path: Bytes)
    requires IsChild(dir, path) && InsideSame(a, b, dir)
    ensures Agree(a, b, path)
  {
    forall p | Below(p, path) ensures SameAt(a, b, p) {
      ChildBelow(dir, path);
      BelowTrans(p, path, dir);
    }
  }

  /** One more child of a directory was restored. */
  lemma {:induction false} OneMoreChild(env: Env, blobs: Blobs, a: Entries, b: Entries, c: Entries, ns: seq<Node>, i: nat, dir: Bytes, id: nat, target: Bytes, changed: bool, affects: bool)
    requires NamedList(ns, dir) && i < |ns|
    requires ListEffect(a, b, dir, changed) && SubEffect(b, c, ns[i].path, affects) && Spared(a, b, target) && Spared(b, c, target)
    requires forall j :: 0 <= j < i ==> Restored(blobs, b, ns[j], id, target)
    requires Restored(blobs, c, ns[i], id, target)
    requires forall j :: i <= j < |ns| ==> Planned(env, b, ns[j], id, target) && Fair(env, blobs, b, ns[j], id, target)
    ensures ListEffect(a, c, dir, changed || affects) && Spared(a, c, target)
    ensures forall j :: 0 <= j <= i ==> Restored(blobs, c, ns[j], id, target)
    ensures forall j :: i < j < |ns| ==> Planned(env, c, ns[j], id, target) && Fair(env, blobs, c, ns[j], id, target)
  {
    hide Restored, Planned, Fair, Spared, Named;
    SparedTrans(a, b, c, target);
    ChildEffect(a, b, c, dir, ns[i].path, changed, affects);
    forall j | 0 <= j < |ns| && j != i
      ensures Restored(blobs, b, ns[j], id, target) ==> Restored(blobs, c, ns[j], id, target)
      ensures Planned(env, b, ns[j], id, target) ==> Planned(env, c, ns[j], id, target)
      ensures Fair(env, blobs, b, ns[j], id, target) ==> Fair(env, blobs, c, ns[j], id, target)
    {
      OthersAgree(b, c, dir, ns[i].path, ns[j].path, affects);
      Framed(env, blobs, b, c, ns[j], id, target);
    }
  }

  lemma {:induction false} OthersAgree(b: Entries, c: Entries, dir: Bytes, path: Bytes, other: Bytes, affects: bool)
    requires IsChild(dir, path) && IsChild(dir, other) && path != other && SubEffect(b, c, path, affects)
    ensures Agree(b, c, other)
  {
    DirOfChild(dir, path);
    forall p | Below(p, other) ensures SameAt(b, c, p) {
      if Below(p, path) { ChildrenDisjoint(dir, path, other, p); }
      ChildBelow(dir, other);
    }
  }

  lemma {:induction false} ChildEffect(a: Entries, b: Entries, c: Entries, dir: Bytes, path: Bytes, changed: bool, affects: bool)
    requires IsChild(dir, path) && ListEffect(a, b, dir, changed) && SubEffect(b, c, path, affects)
    ensures ListEffect(a, c, dir, changed || affects)
  {
    DirOfChild(dir, path);
    ChildBelow(dir, path);
    forall p | !Below(p, dir) ensures SameAt(a, c, p) {
      if Below(p, path) { BelowTrans(p, path, dir); }
      assert SameAt(a, b, p) && SameAt(b, c, p);
    }
  }

  /** What stays when one more child was restored. */
  lemma {:induction false} OneMoreLeft(a: Entries, b: Entries, c: Entries, ns: seq<Node>, i: nat, dir: Bytes, id: nat, target: Bytes, affects: bool)
    requires NamedList(ns, dir) && i < |ns| && SubEffect(b, c, ns[i].path, affects) && Left(b, c, ns[i], id, target)
    requires affects ==> Disturbs(b, ns[i], id, target)
    requires Beside(a, b, ns, dir)
    requires forall j :: 0 <= j < i ==> Left(a, b, ns[j], id, target)
    requires forall j :: i <= j < |ns| ==> Agree(a, b, ns[j].path)
    ensures Beside(a, c, ns, dir) && (affects ==> !Quiet(a, ns, id, target))
    ensures forall j :: 0 <= j <= i ==> Left(a, c, ns[j], id, target)
    ensures forall j :: i < j < |ns| ==> Agree(a, c, ns[j].path)
  {
    hide Left, Below, IsChild, Disturbs, Agree, SubEffect, Beside;
    var path := ns[i].path;
    AgreeHere(a, b, path);
    DisturbsFramed(a, b, ns[i], id, target);
    NothingLeft(a, ns, dir);
    NothingLeft(b, ns, dir);
    NothingLeft(c, ns, dir);
    AgreeBack(a, b, path);
    LeftFramed(b, c, a, c, ns[i], id, target);
    forall j | 0 <= j < |ns| && j != i
      ensures Agree(b, c, ns[j].path)
      ensures Agree(a, b, ns[j].path) ==> Agree(a, c, ns[j].path)
      ensures Left(a, b, ns[j], id, target) ==> Left(a, c, ns[j], id, target)
    {
      OthersAgree(b, c, dir, path, ns[j].path, affects);
      if Agree(a, b, ns[j].path) { AgreeTrans(a, b, c, ns[j].path); }
      if Left(a, b, ns[j], id, target) { LeftFramed(a, b, a, c, ns[j], id, target); }
    }
    BesideLater(a, b, c, ns, i, dir, affects);
  }

  lemma {:induction false} AgreeBack(a: Entries, b: Entries, path: Bytes)
    requires Agree(a, b, path)
    ensures Agree(b, a, path)
  {
    forall p | Below(p, path) ensures SameAt(b, a, p) { assert SameAt(a, b, p); }
  }

  lemma {:induction false} AgreeTrans(a: Entries, b: Entries, c: Entries, path: Bytes)
    requires Agree(a, b, path) && Agree(b, c, path)
    ensures Agree(a, c, path)
  {
    forall p | Below(p, path) ensures SameAt(a, c, p) { assert SameAt(a, b, p) && SameAt(b, c, p); }
  }

  lemma {:induction false} BesideLater(a: Entries, b: Entries, c: Entries, ns: seq<Node>, i: nat, dir: Bytes, affects: bool)
    requires NamedList(ns, dir) && i < |ns| && SubEffect(b, c, ns[i].path, affects) && Beside(a, b, ns, dir)
    ensures Beside(a, c, ns, dir)
  {
    hide Below, Named;
    DirOfChild(dir, ns[i].path);
    forall p | Below(p, dir) && p != dir && (forall j :: 0 <= j < |ns| ==> !Below(p, ns[j].path)) ensures SameAt(a, c, p) {
      assert SameAt(a, b, p);
    }
  }

  lemma {:induction false} LeftWhenIdle(a: Entries, n: Node, id: nat, target: Bytes)
    requires !InScope(n.path, target) || ExistingState(n, id).None?
    ensures Left(a, a, n, id, target)
  {
  }

  lemma {:induction false} FileKeeps(a: Entries, b: Entries, n: Node, s: PathState, id: nat, target: Bytes)
    requires InScope(n.path, target) && ExistingState(n, id) == Some(s) && !s.Directory?
    requires n.policy.NoPolicy? && n.path in a && SameType(s, a[n.path]) ==> b == a
    ensures Left(a, b, n, id, target)
  {
    hide ExistingState;
  }

  /** What stays of a directory and its contents. */
  lemma {:induction false} SettledKeeps(a: Entries, b: Entries, c: Entries, d: Entries, n: Node, s: PathState, id: nat, target: Bytes, changed: bool)
    requires Named(n) && InScope(n.path, target) && ExistingState(n, id) == Some(s) && s.Directory?
    requires n.policy.NoPolicy? && n.path in a && SameType(s, a[n.path]) ==> b == a
    requires InsideSame(a, b, n.path) && ListEffect(b, c, n.path, changed) && AllLeft(b, c, n.subs, n.path, id, target)
    requires (changed ==> !Quiet(b, n.subs, id, target)) && Repaired(c, d, n, s, changed)
    ensures Left(a, d, n, id, target)
  {
    hide ExistingState, Left, Below, IsChild, Disturbs;
    forall i | 0 <= i < |n.subs| ensures Left(a, d, n.subs[i], id, target) {
      InsideAgrees(a, b, n.path, n.subs[i].path);
      AgreeBack(a, b, n.subs[i].path);
      ChildAgrees(c, d, n, s, changed, n.subs[i].path);
      LeftFramed(b, c, a, d, n.subs[i], id, target);
    }
    BesideSettled(a, b, c, d, n, s, changed);
    LeftByParts(a, d, n, s, id, target);
  }

  lemma {:induction false} BesideSettled(a: Entries, b: Entries, c: Entries, d: Entries, n: Node, s: PathState, changed: bool)
    requires s.Directory? && InsideSame(a, b, n.path) && Beside(b, c, n.subs, n.path) && Repaired(c, d, n, s, changed)
    ensures Beside(a, d, n.subs, n.path)
  {
    hide Below;
    forall p | Below(p, n.path) && p != n.path && (forall i :: 0 <= i < |n.subs| ==> !Below(p, n.subs[i].path)) ensures SameAt(a, d, p) {
      assert SameAt(a, b, p) && SameAt(b, c, p) && SameAt(c, d, p);
    }
  }

  lemma {:induction false} LeftByParts(a: Entries, b: Entries, n: Node, s: PathState, id: nat, target: Bytes)
    requires InScope(n.path, target) && ExistingState(n, id) == Some(s)
    requires n.path in a && SameType(s, a[n.path]) && n.policy.NoPolicy? ==> LeftSelf(a, b, n, s, id, target)
    requires Beside(a, b, n.subs, n.path) && forall i :: 0 <= i < |n.subs| ==> Left(a, b, n.subs[i], id, target)
    ensures Left(a, b, n, id, target)
  {
    hide ExistingState, Beside, LeftSelf, InScope;
  }

  /** The path was dealt with and has nothing below it that existed at the id. */
  lemma {:induction false} SelfIsAll(env: Env, blobs: Blobs, b: Entries, n: Node, s: PathState, id: nat, target: Bytes)
    requires ExistingState(n, id) == Some(s) && !s.Directory?
    requires InScope(n.path, target) ==> RestoredSelf(blobs, b, n, s)
    ensures Restored(blobs, b, n, id, target)
  {
  }

  /** The repair of a directory's modification time. */
  ghost predicate Repaired(c: Entries, d: Entries, n: Node, s: PathState, changed: bool)
    requires s.Directory?
  {
    if changed && n.policy != NoPolicy then
      OnlyAt(c, d, n.path) && IsDir(c, n.path) && IsDir(d, n.path) && d[n.path] == WithTime(c[n.path], s.mtime)
    else d == c
  }

  /** A directory and its contents are restored, although the contents disturbed its time. */
  lemma {:induction false} Settled(env: Env, blobs: Blobs, a: Entries, b: Entries, c: Entries, d: Entries, n: Node, s: PathState, id: nat, target: Bytes, affects: bool, changed: bool)
    requires Named(n) && ExistingState(n, id) == Some(s) && s.Directory? && Proper(n.path)
    requires SubEffect(a, b, n.path, affects) && Spared(a, b, target)
    requires ListEffect(b, c, n.path, changed) && Spared(b, c, target) && Repaired(c, d, n, s, changed)
    requires AllRestored(blobs, c, n.subs, id, target)
    requires if InScope(n.path, target) then RestoredSelf(blobs, b, n, s) else !changed
    ensures Restored(blobs, d, n, id, target)
    ensures SubEffect(a, d, n.path, affects) && Spared(a, d, target)
  {
    hide ExistingState, Spared, SubEffect;
    SettledSelf(blobs, b, c, d, n, s, changed, target);
    forall i | 0 <= i < |n.subs| ensures Restored(blobs, d, n.subs[i], id, target) {
      ChildAgrees(c, d, n, s, changed, n.subs[i].path);
      Framed(env, blobs, c, d, n.subs[i], id, target);
    }
    SettledEffect(a, b, c, d, n, s, affects, changed);
    SettledSpares(c, d, n, s, changed, target);
    SparedTrans(a, b, c, target);
    SparedTrans(a, c, d, target);
  }

  lemma {:induction false} SettledSelf(blobs: Blobs, b: Entries, c: Entries, d: Entries, n: Node, s: PathState, changed: bool, target: Bytes)
    requires s.Directory? && ListEffect(b, c, n.path, changed) && Repaired(c, d, n, s, changed)
    requires InScope(n.path, target) ==> RestoredSelf(blobs, b, n, s)
    ensures InScope(n.path, target) ==> RestoredSelf(blobs, d, n, s)
  {
  }

  lemma {:induction false} ChildAgrees(c: Entries, d: Entries, n: Node, s: PathState, changed: bool, path: Bytes)
    requires s.Directory? && Repaired(c, d, n, s, changed) && IsChild(n.path, path)
    ensures Agree(c, d, path)
  {
    ChildBelow(n.path, path);
  }

  lemma {:induction false} SettledEffect(a: Entries, b: Entries, c: Entries, d: Entries, n: Node, s: PathState, affects: bool, changed: bool)
    requires s.Directory? && Proper(n.path) && SubEffect(a, b, n.path, affects)
    requires ListEffect(b, c, n.path, changed) && Repaired(c, d, n, s, changed)
    ensures SubEffect(a, d, n.path, affects)
  {
    ChildBelow(DirOf(n.path), n.path);
    forall p | !Below(p, n.path) ensures SameAt(b, d, p) {
      assert SameAt(b, c, p) && SameAt(c, d, p);
    }
    assert SameAt(b, d, DirOf(n.path));
    forall p | !Below(p, n.path) ensures SameAt(a, b, p) ==> SameAt(a, d, p) {
      assert SameAt(b, d, p);
    }
  }

  lemma {:induction false} SettledSpares(c: Entries, d: Entries, n: Node, s: PathState, changed: bool, target: Bytes)
    requires s.Directory? && Repaired(c, d, n, s, changed) && (InScope(n.path, target) || !changed)
    ensures Spared(c, d, target)
  {
  }

  // ----- the whole restore -----

  /** Planning only writes hints. */
  predicate SameButHints(n: Node, r: Node)
    decreases n
  {
    && r.path == n.path && r.policy == n.policy && r.history == n.history
    && |r.subs| == |n.subs| && forall i :: 0 <= i < |n.subs| ==> SameButHints(n.subs[i], r.subs[i])
  }

  lemma {:induction false} SameAsItself(n: Node)
    ensures SameButHints(n, n)
    decreases n
  {
    forall i | 0 <= i < |n.subs| ensures SameButHints(n.subs[i], n.subs[i]) { SameAsItself(n.subs[i]); }
  }

  lemma {:induction false} CheckKeeps(env: Env, disk: Entries, n: Node, s: PathState, id: nat, couldExist: bool)
    ensures SameButHints(n, CheckNode(env, disk, n, s, id, couldExist))
    decreases n
  {
    hide CheckedHint, ExistingState;
    var r := CheckNode(env, disk, n, s, id, couldExist);
    forall i | 0 <= i < |n.subs| ensures SameButHints(n.subs[i], r.subs[i]) {
      SameAsItself(n.subs[i]);
      if s.Directory? && ExistingState(n.subs[i], id).Some? {
        CheckKeeps(env, disk, n.subs[i], ExistingState(n.subs[i], id).value, id, couldExist && !Replaced(r.hint));
        assert r.subs[i] == CheckNode(env, disk, n.subs[i], ExistingState(n.subs[i], id).value, id, couldExist && !Replaced(r.hint));
      } else {
        assert r.subs[i] == n.subs[i];
      }
    }
  }

  lemma {:induction false} InitiateKeeps(env: Env, disk: Entries, ns: seq<Node>, id: nat, path: Bytes, couldExist: bool)
    requires InitiateList(env, disk, ns, id, path, couldExist).Some?
    ensures var rs := InitiateList(env, disk, ns, id, path, couldExist).value;
      |rs| == |ns| && forall i :: 0 <= i < |ns| ==> SameButHints(ns[i], rs[i])
    decreases ns
  {
    hide CheckedHint, ExistingState, CheckNode, IsParentPath, SameButHints;
    var rs := InitiateList(env, disk, ns, id, path, couldExist).value;
    forall i | 0 <= i < |ns| ensures SameButHints(ns[i], ns[i]) { SameAsItself(ns[i]); }
    if ns[0].path == path {
      CheckKeeps(env, disk, ns[0], ExistingState(ns[0], id).value, id, couldExist);
    } else if IsParentPath(ns[0].path, path) {
      var h := CheckedHint(env, disk, ns[0], ExistingState(ns[0], id).value, couldExist);
      InitiateKeeps(env, disk, ns[0].subs, id, path, couldExist && !Replaced(h));
      AboveKeeps(ns[0], h, InitiateList(env, disk, ns[0].subs, id, path, couldExist && !Replaced(h)).value);
    } else {
      InitiateKeeps(env, disk, ns[1..], id, path, couldExist);
      var rest := InitiateList(env, disk, ns[1..], id, path, couldExist).value;
      assert forall i :: 1 <= i < |ns| ==> ns[i] == ns[1..][i - 1] && rs[i] == rest[i - 1];
    }
  }

  lemma {:induction false} AboveKeeps(n: Node, h: Hint, subs: seq<Node>)
    requires |subs| == |n.subs| && forall i :: 0 <= i < |n.subs| ==> SameButHints(n.subs[i], subs[i])
    ensures SameButHints(n, n.(hint := h, subs := subs))
  {
  }

  lemma {:induction false} HintsDoNotMatter(env: Env, blobs: Blobs, a: Entries, n: Node, r: Node, id: nat, target: Bytes)
    requires SameButHints(n, r)
    ensures Restored(blobs, a, r, id, target) <==> Restored(blobs, a, n, id, target)
    ensures Fair(env, blobs, a, r, id, target) <==> Fair(env, blobs, a, n, id, target)
    ensures Named(r) <==> Named(n)
    decreases n
  {
    hide Matches, FairSelf, SearchPathState;
    forall i | 0 <= i < |n.subs|
      ensures Restored(blobs, a, r.subs[i], id, target) <==> Restored(blobs, a, n.subs[i], id, target)
      ensures Fair(env, blobs, a, r.subs[i], id, target) <==> Fair(env, blobs, a, n.subs[i], id, target)
      ensures Named(r.subs[i]) <==> Named(n.subs[i])
      ensures r.subs[i].path == n.subs[i].path
    {
      HintsDoNotMatter(env, blobs, a, n.subs[i], r.subs[i], id, target);
    }
  }

  lemma {:induction false} LeftIgnoresHints(a: Entries, b: Entries, n: Node, r: Node, id: nat, target: Bytes)
    requires SameButHints(n, r)
    ensures Left(a, b, r, id, target) <==> Left(a, b, n, id, target)
    ensures Disturbs(a, r, id, target) <==> Disturbs(a, n, id, target)
    decreases n
  {
    hide SearchPathState, InScope, Agree;
    forall i | 0 <= i < |n.subs|
      ensures Left(a, b, r.subs[i], id, target) <==> Left(a, b, n.subs[i], id, target)
      ensures Disturbs(a, r.subs[i], id, target) <==> Disturbs(a, n.subs[i], id, target)
      ensures r.subs[i].path == n.subs[i].path
    {
      LeftIgnoresHints(a, b, n.subs[i], r.subs[i], id, target);
    }
    assert Beside(a, b, r.subs, n.path) <==> Beside(a, b, n.subs, n.path) by { BesidePaths(a, b, n.subs, r.subs, n.path); }
  }

  lemma {:induction false} BesidePaths(a: Entries, b: Entries, ns: seq<Node>, rs: seq<Node>, dir: Bytes)
    requires |rs| == |ns| && forall i :: 0 <= i < |ns| ==> rs[i].path == ns[i].path
    ensures Beside(a, b, rs, dir) <==> Beside(a, b, ns, dir)
  {
    hide Below, SameAt;
    if Beside(a, b, rs, dir) {
      forall p | Below(p, dir) && p != dir && (forall i :: 0 <= i < |ns| ==> !Below(p, ns[i].path)) ensures SameAt(a, b, p) {
        assert forall i :: 0 <= i < |rs| ==> !Below(p, rs[i].path);
      }
    }
    if Beside(a, b, ns, dir) {
      forall p | Below(p, dir) && p != dir && (forall i :: 0 <= i < |rs| ==> !Below(p, rs[i].path)) ensures SameAt(a, b, p) {
        assert forall i :: 0 <= i < |ns| ==> !Below(p, ns[i].path);
      }
    }
  }

  /** What nb.c:344-358 asks for: everything, or an absolute path without a trailing slash. */
  predicate ProperRequest(path: Bytes) { path == [] || (path[0] == SLASH && !EndsWithSlash(path)) }

  lemma {:induction false} RequestPlans(env: Env, blobs: Blobs, disk: Entries, ns: seq<Node>, id: nat, path: Bytes)
    requires NamedList(ns, []) && (forall i :: 0 <= i < |ns| ==> Idle(ns[i])) && Closed(disk) && ProperRequest(path)
    requires InitiateRestore(env, disk, ns, id, path).Some?
    ensures var rs := InitiateRestore(env, disk, ns, id, path).value;
      && AllPlanned(env, disk, rs, id, path)
      && |rs| == |ns| && forall i :: 0 <= i < |ns| ==> SameButHints(ns[i], rs[i])
  {
    hide Closed, Idle, Named, CheckNode, ExistingState, InitiateList;
    if path == [] {
      forall i | 0 <= i < |ns| ensures Below(ns[i].path, []) { ChildBelow([], ns[i].path); }
      CheckListPlans(env, disk, ns, id, true, path);
      forall i | 0 <= i < |ns| ensures SameButHints(ns[i], CheckList(env, disk, ns, id, true)[i]) {
        SameAsItself(ns[i]);
        if ExistingState(ns[i], id).Some? { CheckKeeps(env, disk, ns[i], ExistingState(ns[i], id).value, id, true); }
      }
    } else {
      InitiatePlans(env, disk, ns, [], id, path, true);
      InitiateKeeps(env, disk, ns, id, path, true);
    }
  }

  /** Restoring reaches its target: every path in the scope of the request that existed at the id, and
      is reached through directories that existed at the id, has its recorded type; with a policy it
      also has its recorded owner, mode, content or target, and modification time, although creating
      children disturbs the times of directories. No other path is touched. Within
      the scope, what is not to be restored stays, and a path that is there with its recorded type and
      has no policy keeps everything but its time. */
  method RestoreTo(env: Env, blobs: Blobs, disk: Disk, ns: seq<Node>, id: nat, path: Bytes) returns (planned: bool)
    requires disk.Valid() && NamedList(ns, []) && (forall i :: 0 <= i < |ns| ==> Idle(ns[i])) && ProperRequest(path)
    requires AllFair(env, blobs, disk.entries, ns, id, path)
    modifies disk
    ensures planned <==> InitiateRestore(env, old(disk.entries), ns, id, path).Some?
    ensures !planned ==> disk.entries == old(disk.entries)
    ensures planned ==> AllRestored(blobs, disk.entries, ns, id, path) && Spared(old(disk.entries), disk.entries, path)
    ensures planned ==> AllLeft(old(disk.entries), disk.entries, ns, [], id, path)
  {
    hide Left, Beside, Quiet, Closed, Restored, Planned, Fair, Named, Idle, SameButHints, InitiateRestore, Spared;
    ghost var start := disk.entries;
    var plan := InitiateRestore(env, disk.entries, ns, id, path);
    if plan.None? { return false; }
    RequestPlans(env, blobs, start, ns, id, path);
    var rs := plan.value;
    forall i | 0 <= i < |ns| ensures rs[i].path == ns[i].path && Named(rs[i]) && Fair(env, blobs, start, rs[i], id, path) {
      assert SameButHints(ns[i], rs[i]);
      SamePath(ns[i], rs[i]);
      HintsDoNotMatter(env, blobs, start, ns[i], rs[i], id, path);
    }
    RootIsDirectory(start);
    var restorer := new Restorer(env, blobs, disk);
    var changed := restorer.FinishList(rs, [], id, path);
    forall i | 0 <= i < |ns| ensures Restored(blobs, disk.entries, ns[i], id, path) && Left(start, disk.entries, ns[i], id, path) {
      HintsDoNotMatter(env, blobs, disk.entries, ns[i], rs[i], id, path);
      LeftIgnoresHints(start, disk.entries, ns[i], rs[i], id, path);
    }
    BesidePaths(start, disk.entries, ns, rs, []);
    planned := true;
  }

  lemma {:induction false} SamePath(n: Node, r: Node)
    requires SameButHints(n, r)
    ensures r.path == n.path
  {
  }

  lemma {:induction false} RootIsDirectory(a: Entries)
    requires Closed(a)
    ensures IsDir(a, [])
  {
  }
}
