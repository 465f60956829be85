/** A model file system: every entry by its full path, the root directory by the empty path. It
    stands for the system calls behind src/safe-wrappers.c. Creating or removing an entry sets the
    modification time of its directory to a time nobody controls. */
module FileSystem {
  import opened Data
  import opened Metadata

  type Entries = map<Bytes, Entry>

  /** Whether a path is root, or lies below it. */
  predicate Below(path: Bytes, root: Bytes) {
    path == root || (|path| > |root| && path[..|root|] == root && path[|root|] == SLASH)
  }

  predicate IsChild(dir: Bytes, path: Bytes) {
    |path| > |dir| && path[..|dir|] == dir && path[|dir|] == SLASH && forall i :: |dir| < i < |path| ==> path[i] != SLASH
  }

  function WithTime(e: Entry, t: I64): Entry {
    match e
    case File(u, g, m, _, c) => File(u, g, m, t, c)
    case Dir(u, g, m, _) => Dir(u, g, m, t)
    case _ => e
  }

  function WithMode(e: Entry, mode: U32): Entry {
    match e
    case File(u, g, _, t, c) => File(u, g, mode, t, c)
    case Dir(u, g, _, t) => Dir(u, g, mode, t)
    case _ => e
  }

  function WithOwner(e: Entry, uid: U32, gid: U32): Entry {
    match e
    case File(_, _, m, t, c) => File(uid, gid, m, t, c)
    case Link(_, _, t) => Link(uid, gid, t)
    case Dir(_, _, m, t) => Dir(uid, gid, m, t)
    case Other => e
  }

  predicate IsDir(a: Entries, path: Bytes) { path in a && a[path].Dir? }

  /** What is in a directory hangs below directories only. */
  ghost predicate Closed(a: Entries) {
    IsDir(a, []) && forall p, k {:trigger p[..k]} :: p in a && 0 <= k < |p| && p[k] == SLASH ==> IsDir(a, p[..k])
  }

  ghost predicate SameAt(a: Entries, b: Entries, p: Bytes) { (p in a <==> p in b) && (p in a ==> a[p] == b[p]) }

  /** The same below and at the given path. */
  ghost predicate Agree(a: Entries, b: Entries, root: Bytes) { forall p :: Below(p, root) ==> SameAt(a, b, p) }

  /** Nothing below the path. */
  ghost predicate Bare(a: Entries, path: Bytes) { forall p :: Below(p, path) && p != path ==> p !in a }

  ghost predicate SameButTime(a: Entries, b: Entries, p: Bytes) {
    IsDir(a, p) && IsDir(b, p) && b[p] == WithTime(a[p], b[p].mtime)
  }

  /** Nothing changes but what is below one path; its directory may get a new modification time. */
  ghost predicate Contained(a: Entries, b: Entries, dir: Bytes, root: Bytes) {
    && (forall p :: !Below(p, root) && p != dir ==> SameAt(a, b, p))
    && SameButTime(a, b, dir)
  }

  // ----- paths -----

  lemma {:induction false} BelowTrans(p: Bytes, q: Bytes, r: Bytes)
    requires Below(p, q) && Below(q, r)
    ensures Below(p, r)
  {
    if p != q && q != r { assert p[..|r|] == p[..|q|][..|r|]; }
  }

  lemma {:induction false} ChildBelow(dir: Bytes, path: Bytes)
    requires IsChild(dir, path)
    ensures Below(path, dir) && path != dir && !Below(dir, path)
  {
  }

  /** Two paths above the same path are above one another. */
  lemma {:induction false} BelowLinear(p: Bytes, q: Bytes, r: Bytes)
    requires Below(p, q) && Below(p, r)
    ensures Below(q, r) || Below(r, q)
  {
    if |q| >= |r| {
      assert q[..|r|] == p[..|q|][..|r|] == r;
    } else {
      assert r[..|q|] == p[..|r|][..|q|] == q;
    }
  }

  /** Different children of a directory have nothing in common below them. */
  lemma {:induction false} ChildrenDisjoint(dir: Bytes, a: Bytes, b: Bytes, p: Bytes)
    requires IsChild(dir, a) && IsChild(dir, b) && Below(p, a) && Below(p, b)
    ensures a == b
  {
    BelowLinear(p, a, b);
  }

  /** A path below another one, but not the same, hangs in or below one of its children. */
  lemma {:induction false} ClosedAbove(a: Entries, p: Bytes, root: Bytes)
    requires Closed(a) && p in a && Below(p, root) && p != root
    ensures IsDir(a, root)
  {
    assert p[..|root|] == root;
  }

  lemma {:induction false} NothingBelow(a: Entries, root: Bytes)
    requires Closed(a) && !IsDir(a, root)
    ensures Bare(a, root)
  {
    forall p | Below(p, root) && p != root ensures p !in a {
      if p in a { ClosedAbove(a, p, root); }
    }
  }

  // ----- operations -----

  /** An entry at a new or present path of a directory. */
  lemma {:induction false} ClosedAfterCreate(a: Entries, b: Entries, dir: Bytes, path: Bytes)
    requires Closed(a) && IsChild(dir, path) && IsDir(a, dir) && path in b
    requires IsDir(a, path) ==> IsDir(b, path)
    requires SameButTime(a, b, dir) && forall p :: p != path && p != dir ==> SameAt(a, b, p)
    ensures Closed(b)
  {
    assert IsDir(b, []) by { if dir != [] && path != [] { assert SameAt(a, b, []); } }
    forall p, k {:trigger p[..k]} | p in b && 0 <= k < |p| && p[k] == SLASH ensures IsDir(b, p[..k]) {
      if p == path {
        PrefixOfChild(dir, path, k);
        if k < |dir| { assert dir[..k] == path[..k]; assert IsDir(a, dir[..k]); }
        if p[..k] != dir { assert SameAt(a, b, p[..k]); }
      } else {
        assert p in a by { if p != dir { assert SameAt(a, b, p); } }
        assert IsDir(a, p[..k]);
        if p[..k] != dir && p[..k] != path { assert SameAt(a, b, p[..k]); }
      }
    }
  }

  lemma {:induction false} PrefixOfChild(dir: Bytes, path: Bytes, k: nat)
    requires IsChild(dir, path) && k < |path| && path[k] == SLASH
    ensures k <= |dir|
    ensures k < |dir| ==> dir[k] == SLASH && dir[..k] == path[..k]
    ensures k == |dir| ==> path[..k] == dir
  {
    assert path[..|dir|][..k] == path[..k];
    assert k < |dir| ==> path[..|dir|][k] == path[k];
  }

  lemma {:induction false} ClosedAfterRemove(a: Entries, b: Entries, dir: Bytes, path: Bytes)
    requires Closed(a) && IsChild(dir, path)
    requires SameButTime(a, b, dir) && (forall p :: Below(p, path) ==> p !in b)
    requires forall p :: !Below(p, path) && p != dir ==> SameAt(a, b, p)
    ensures Closed(b)
  {
    ChildBelow(dir, path);
    assert IsDir(b, []) by { if dir != [] { assert !Below([], path); assert SameAt(a, b, []); } }
    forall p, k {:trigger p[..k]} | p in b && 0 <= k < |p| && p[k] == SLASH ensures IsDir(b, p[..k]) {
      assert !Below(p, path);
      assert p in a by { if p != dir { assert SameAt(a, b, p); } }
      assert IsDir(a, p[..k]);
      assert Below(p, p[..k]);
      if Below(p[..k], path) { BelowTrans(p, p[..k], path); }
      if p[..k] != dir { assert SameAt(a, b, p[..k]); }
    }
  }

  /** The directory that holds a path. */
  function DirOf(path: Bytes): (d: Bytes)
    ensures |d| <= |path|
  {
    if path == [] then [] else if path[|path| - 1] == SLASH then path[..|path| - 1] else DirOf(path[..|path| - 1])
  }

  lemma {:induction false} DirOfChild(dir: Bytes, path: Bytes)
    requires IsChild(dir, path)
    ensures DirOf(path) == dir
  {
    var front := path[..|path| - 1];
    if path[|path| - 1] == SLASH {
      LastOfChild(dir, path);
    } else {
      assert IsChild(dir, front) by { assert front[..|dir|] == path[..|dir|]; }
      DirOfChild(dir, front);
    }
  }

  lemma {:induction false} LastOfChild(dir: Bytes, path: Bytes)
    requires IsChild(dir, path) && path[|path| - 1] == SLASH
    ensures path[..|path| - 1] == dir
  {
    assert |path| == |dir| + 1;
  }

  /** A path that hangs in some directory. */
  predicate Proper(path: Bytes) { IsChild(DirOf(path), path) }

  /** What an operation that writes to an entry leaves of it. */
  ghost predicate OnlyAt(a: Entries, b: Entries, path: Bytes) { forall p :: p != path ==> SameAt(a, b, p) }

  lemma {:induction false} ClosedAfterWrite(a: Entries, b: Entries, path: Bytes)
    requires Closed(a) && path in a && path in b && (IsDir(a, path) ==> IsDir(b, path)) && OnlyAt(a, b, path)
    ensures Closed(b)
  {
    assert IsDir(b, []) by { if path != [] { assert SameAt(a, b, []); } }
    forall p, k {:trigger p[..k]} | p in b && 0 <= k < |p| && p[k] == SLASH ensures IsDir(b, p[..k]) {
      assert p in a by { if p != path { assert SameAt(a, b, p); } }
      assert IsDir(a, p[..k]);
      if p[..k] != path { assert SameAt(a, b, p[..k]); }
    }
  }

  class Disk {
    var entries: Entries

    constructor (entries: Entries)
      ensures this.entries == entries
    {
      this.entries := entries;
    }

    ghost predicate Valid() reads this { Closed(entries) }

    /** Adds an entry to its directory, which gets the current time. */
    method Create(path: Bytes, e: Entry)
      requires Valid() && Proper(path) && IsDir(entries, DirOf(path)) && path !in entries
      modifies this
      ensures Valid() && Contained(old(entries), entries, DirOf(path), path)
      ensures path in entries && entries[path] == e
      ensures Bare(entries, path)
    {
      var dir := DirOf(path);
      var now: I64 := *;
      ChildBelow(dir, path);
      NothingBelow(entries, path);
      entries := entries[dir := WithTime(entries[dir], now)][path := e];
      ClosedAfterCreate(old(entries), entries, dir, path);
    }

    /** mkdir() */
    method Mkdir(path: Bytes)
      requires Valid() && Proper(path) && IsDir(entries, DirOf(path)) && path !in entries
      modifies this
      ensures Valid() && Contained(old(entries), entries, DirOf(path), path) && IsDir(entries, path)
      ensures Bare(entries, path)
    {
      var uid: U32, gid: U32, mode: U32, now: I64 := *, *, *, *;
      Create(path, Dir(uid, gid, mode, now));
    }

    /** symlink() */
    method Symlink(target: Bytes, path: Bytes)
      requires Valid() && Proper(path) && IsDir(entries, DirOf(path)) && path !in entries
      modifies this
      ensures Valid() && Contained(old(entries), entries, DirOf(path), path)
      ensures path in entries && entries[path].Link? && entries[path].target == target
      ensures Bare(entries, path)
    {
      var uid: U32, gid: U32 := *, *;
      Create(path, Link(uid, gid, target));
    }

    /** fopen() for writing: creates the file, or empties the one that is there. */
    method OpenWrite(path: Bytes)
      requires Valid() && Proper(path) && IsDir(entries, DirOf(path))
      requires path in entries ==> entries[path].File?
      modifies this
      ensures Valid() && path in entries && entries[path].File? && entries[path].content == []
      ensures path !in old(entries) ==> Contained(old(entries), entries, DirOf(path), path)
      ensures path in old(entries) ==> OnlyAt(old(entries), entries, path) && SameFile(old(entries[path]), entries[path])
      ensures Bare(entries, path)
    {
      var now: I64 := *;
      NothingBelow(entries, path);
      if path in entries {
        entries := entries[path := entries[path].(content := [], mtime := now)];
        ClosedAfterWrite(old(entries), entries, path);
      } else {
        var uid: U32, gid: U32, mode: U32 := *, *, *;
        Create(path, File(uid, gid, mode, now, []));
      }
    }

    method Append(path: Bytes, data: Bytes)
      requires Valid() && path in entries && entries[path].File? && |entries[path].content| + |data| <= SIZE_MAX
      modifies this
      ensures Valid() && OnlyAt(old(entries), entries, path) && path in entries && SameFile(old(entries[path]), entries[path])
      ensures entries[path].content == old(entries[path].content) + data
    {
      var now: I64 := *;
      entries := entries[path := entries[path].(content := entries[path].content + data, mtime := now)];
      ClosedAfterWrite(old(entries), entries, path);
    }

    method Chown(path: Bytes, uid: U32, gid: U32)
      requires Valid() && path in entries && !entries[path].Other?
      modifies this
      ensures Valid() && OnlyAt(old(entries), entries, path)
      ensures path in entries && entries[path] == WithOwner(old(entries[path]), uid, gid)
    {
      entries := entries[path := WithOwner(entries[path], uid, gid)];
      ClosedAfterWrite(old(entries), entries, path);
    }

    method Chmod(path: Bytes, mode: U32)
      requires Valid() && path in entries && (entries[path].File? || entries[path].Dir?)
      modifies this
      ensures Valid() && OnlyAt(old(entries), entries, path)
      ensures path in entries && entries[path] == WithMode(old(entries[path]), mode)
    {
      entries := entries[path := WithMode(entries[path], mode)];
      ClosedAfterWrite(old(entries), entries, path);
    }

    method Utime(path: Bytes, time: I64)
      requires Valid() && path in entries && (entries[path].File? || entries[path].Dir?)
      modifies this
      ensures Valid() && OnlyAt(old(entries), entries, path)
      ensures path in entries && entries[path] == WithTime(old(entries[path]), time)
    {
      entries := entries[path := WithTime(entries[path], time)];
      ClosedAfterWrite(old(entries), entries, path);
    }

    /** remove() of anything but a directory, or the removal of a directory with all its contents. */
    method RemoveRecursively(path: Bytes)
      requires Valid() && Proper(path) && path in entries
      modifies this
      ensures Valid() && Contained(old(entries), entries, DirOf(path), path)
      ensures forall p :: Below(p, path) ==> p !in entries
    {
      var dir := DirOf(path);
      var now: I64 := *;
      ChildBelow(dir, path);
      ClosedAbove(entries, path, dir);
      entries := map p | p in entries && !Below(p, path) :: if p == dir then WithTime(entries[p], now) else entries[p];
      ClosedAfterRemove(old(entries), entries, dir, path);
    }

    method Remove(path: Bytes)
      requires Valid() && Proper(path) && path in entries && !IsDir(entries, path)
      modifies this
      ensures Valid() && Contained(old(entries), entries, DirOf(path), path)
      ensures forall p :: Below(p, path) ==> p !in entries
    {
      RemoveRecursively(path);
    }
  }

  /** Writing to a file changes nothing but its content and modification time. */
  predicate SameFile(a: Entry, b: Entry) {
    a.File? && b.File? && a.uid == b.uid && a.gid == b.gid && a.mode == b.mode
  }
}
