/** The order in which garbage collection removes items, as deletions on a disk: every directory goes
    after what was in it, nothing preserved goes, and every stored file that is not preserved does. */
module SweepOrder {
  import opened Data
  import opened Metadata
  import opened Backup
  import opened BlobStore
  import opened RepoPath
  import opened GarbageCollector
  import opened Runs
  import C = CrashSafety
  import opened Durable
  import opened Atomicity

  // ----- a directory tree on a disk -----

  /** The items below a directory are what the disk has there. */
  ghost predicate Lists(live: map<C.Path, C.Item>, items: seq<Item>, dir: C.Path)
    decreases items, 0
  {
    && (forall i :: 0 <= i < |items| ==> ListsItem(live, items[i], dir + [items[i].name]))
    && (forall i, j :: 0 <= i < j < |items| ==> items[i].name != items[j].name)
    && (forall q :: q in live && |q| == |dir| + 1 && q[..|dir|] == dir ==> exists i :: 0 <= i < |items| && items[i].name == q[|dir|])
  }

  ghost predicate ListsItem(live: map<C.Path, C.Item>, item: Item, q: C.Path)
    decreases item, 1
  {
    && q in live && (item.body.Folder? <==> live[q] == C.Folder)
    && if item.body.Folder? then Lists(live, item.body.items, q) else forall r :: r in live && |r| > 0 ==> r[..|r| - 1] != q
  }

  // ----- removals by path elements -----

  function RemovalsAt(item: Item, q: C.Path, keep: set<Bytes>): seq<C.Path>
    decreases item, 1
  {
    (if item.body.Folder? then RemovalsBelow(item.body.items, q, keep) else [])
    + if Sweep(item, PathText(q), keep).None? then [q] else []
  }

  function RemovalsBelow(items: seq<Item>, dir: C.Path, keep: set<Bytes>): seq<C.Path>
    decreases items, 0
  {
    if items == [] then [] else RemovalsAt(items[0], dir + [items[0].name], keep) + RemovalsBelow(items[1..], dir, keep)
  }

  function Texts(qs: seq<C.Path>): seq<Bytes> { seq(|qs|, i requires 0 <= i < |qs| => PathText(qs[i])) }

  lemma {:induction false} TextBelow(dir: C.Path, name: Bytes)
    ensures PathText(dir + [name]) == if dir == [] then name else Below(PathText(dir), name)
    decreases |dir|
  {
    if |dir| == 1 {
      assert (dir + [name])[1..] == [name];
    } else if |dir| > 1 {
      assert (dir + [name])[1..] == dir[1..] + [name];
      TextBelow(dir[1..], name);
    } else {
      assert dir + [name] == [name];
    }
  }

  /** These are the paths that the collector removes, in its order. */
  lemma {:induction false} TextsAt(item: Item, q: C.Path, keep: set<Bytes>)
    requires q != []
    ensures Texts(RemovalsAt(item, q, keep)) == Removals(item, PathText(q), keep)
    decreases item, 1
  {
    hide PathText, Sweep;
    if item.body.Folder? { TextsBelow(item.body.items, q, keep); }
  }

  lemma {:induction false} TextsBelow(items: seq<Item>, dir: C.Path, keep: set<Bytes>)
    ensures Texts(RemovalsBelow(items, dir, keep)) == if dir == [] then RemovalsTop(items, keep) else RemovalsIn(items, PathText(dir), keep)
    decreases items, 0
  {
    hide PathText, Removals, RemovalsAt;
    if items != [] {
      var q := dir + [items[0].name];
      TextBelow(dir, items[0].name);
      TextsAt(items[0], q, keep);
      TextsBelow(items[1..], dir, keep);
      var a, b := RemovalsAt(items[0], q, keep), RemovalsBelow(items[1..], dir, keep);
      assert Texts(a + b) == Texts(a) + Texts(b);
    }
  }

  // ----- the order -----

  predicate Under(d: C.Path, q: C.Path) { |d| >= |q| && d[..|q|] == q }

  /** Each path is there, goes once, is not preserved, and goes after everything in it. */
  ghost predicate LeafFirst(live: map<C.Path, C.Item>, dels: seq<C.Path>, keep: set<Bytes>) {
    && (forall k :: 0 <= k < |dels| ==> dels[k] != [] && dels[k] in live && PathText(dels[k]) !in keep)
    && (forall j, k :: 0 <= j < k < |dels| ==> dels[j] != dels[k])
    && (forall k, r :: 0 <= k < |dels| && r in live && |r| > 1 && r[..|r| - 1] == dels[k] ==> r in dels[..k])
  }

  lemma {:induction false} UnderName(d: C.Path, dir: C.Path, name: Bytes)
    requires Under(d, dir + [name])
    ensures |d| > |dir| && d[|dir|] == name
  {
    assert d[..|dir| + 1][|dir|] == name;
  }

  lemma {:induction false} LeafFirstConcat(live: map<C.Path, C.Item>, a: seq<C.Path>, b: seq<C.Path>, keep: set<Bytes>)
    requires LeafFirst(live, a, keep) && LeafFirst(live, b, keep) && forall d :: d in a ==> d !in b
    ensures LeafFirst(live, a + b, keep)
  {
    hide PathText;
    var dels := a + b;
    forall k, r | 0 <= k < |dels| && r in live && |r| > 1 && r[..|r| - 1] == dels[k] ensures r in dels[..k] {
      if k < |a| {
        assert dels[..k] == a[..k];
      } else {
        assert dels[k] == b[k - |a|] && dels[..k] == a + b[..k - |a|];
      }
    }
    forall j, k | 0 <= j < k < |dels| ensures dels[j] != dels[k] {
      if j < |a| <= k { assert dels[j] in a && dels[k] in b; }
    }
  }

  lemma {:induction false} LeafFirstLast(live: map<C.Path, C.Item>, a: seq<C.Path>, q: C.Path, keep: set<Bytes>)
    requires LeafFirst(live, a, keep) && q !in a && q != [] && q in live && PathText(q) !in keep
    requires forall r :: r in live && |r| > 1 && r[..|r| - 1] == q ==> r in a
    ensures LeafFirst(live, a + [q], keep)
  {
    hide PathText;
    var dels := a + [q];
    forall k, r | 0 <= k < |dels| && r in live && |r| > 1 && r[..|r| - 1] == dels[k] ensures r in dels[..k] {
      assert dels[..k] == a[..k];
      if k == |a| { assert a[..k] == a; }
    }
  }

  lemma {:induction false} SweptInside(items: seq<Item>, path: Bytes, keep: set<Bytes>)
    requires SweepAll(items, path, keep) == []
    ensures forall i :: 0 <= i < |items| ==> Sweep(items[i], Below(path, items[i].name), keep).None?
  {
    hide Sweep;
    if items != [] {
      SweptInside(items[1..], path, keep);
      assert forall i :: 1 <= i < |items| ==> items[i] == items[1..][i - 1];
    }
  }

  /** Removing one item: everything that goes is in it, and it goes itself exactly if the sweep leaves
      nothing of it. */
  lemma {:induction false} ItemInOrder(live: map<C.Path, C.Item>, item: Item, q: C.Path, keep: set<Bytes>)
    requires ListsItem(live, item, q) && q != []
    ensures var dels := RemovalsAt(item, q, keep);
      && LeafFirst(live, dels, keep) && (forall d :: d in dels ==> Under(d, q))
      && (q in dels <==> Sweep(item, PathText(q), keep).None?)
    decreases item, 1
  {
    hide LeafFirst, PathText, RemovalsBelow, SweepAll;
    var inside := if item.body.Folder? then RemovalsBelow(item.body.items, q, keep) else [];
    if item.body.Folder? { ListInOrder(live, item.body.items, q, keep); } else { NothingInOrder(live, keep); }
    forall d | d in inside ensures Under(d, q) && d != q {
      if item.body.Folder? {
        var i :| 0 <= i < |item.body.items| && Under(d, q + [item.body.items[i].name]);
        assert d[..|q|] == d[..|q| + 1][..|q|];
      }
    }
    if Sweep(item, PathText(q), keep).None? {
      forall r | r in live && |r| > 1 && r[..|r| - 1] == q ensures r in inside { ChildGoes(live, item, q, keep, r); }
      LeafFirstLast(live, inside, q, keep);
    } else {
      assert inside + [] == inside;
    }
  }

  lemma {:induction false} NothingInOrder(live: map<C.Path, C.Item>, keep: set<Bytes>)
    ensures LeafFirst(live, [], keep)
  {
  }

  /** What is in a directory that goes has gone before it. */
  lemma {:induction false} ChildGoes(live: map<C.Path, C.Item>, item: Item, q: C.Path, keep: set<Bytes>, r: C.Path)
    requires ListsItem(live, item, q) && q != [] && Sweep(item, PathText(q), keep).None?
    requires r in live && |r| > 1 && r[..|r| - 1] == q
    requires item.body.Folder? ==> forall i :: 0 <= i < |item.body.items| ==>
      (q + [item.body.items[i].name] in RemovalsBelow(item.body.items, q, keep) <==> Sweep(item.body.items[i], PathText(q + [item.body.items[i].name]), keep).None?)
    ensures item.body.Folder? && r in RemovalsBelow(item.body.items, q, keep)
  {
    hide PathText, RemovalsBelow, SweepAll;
    assert item.body.Folder?;
    var items := item.body.items;
    SweptInside(items, PathText(q), keep);
    var i :| 0 <= i < |items| && items[i].name == r[|q|];
    assert r == q + [items[i].name];
    TextBelow(q, items[i].name);
  }

  lemma {:induction false} ListInOrder(live: map<C.Path, C.Item>, items: seq<Item>, dir: C.Path, keep: set<Bytes>)
    requires forall i :: 0 <= i < |items| ==> ListsItem(live, items[i], dir + [items[i].name])
    requires forall i, j :: 0 <= i < j < |items| ==> items[i].name != items[j].name
    ensures var dels := RemovalsBelow(items, dir, keep);
      && LeafFirst(live, dels, keep)
      && (forall d :: d in dels ==> exists i :: 0 <= i < |items| && Under(d, dir + [items[i].name]))
      && (forall i :: 0 <= i < |items| ==> (dir + [items[i].name] in dels <==> Sweep(items[i], PathText(dir + [items[i].name]), keep).None?))
    decreases items, 0
  {
    hide LeafFirst, PathText, RemovalsAt, ListsItem, Sweep;
    if items == [] {
      NothingInOrder(live, keep);
    } else {
      var q, rest := dir + [items[0].name], items[1..];
      assert forall i :: 0 <= i < |rest| ==> rest[i] == items[i + 1];
      ItemInOrder(live, items[0], q, keep);
      ListInOrder(live, rest, dir, keep);
      var a, b := RemovalsAt(items[0], q, keep), RemovalsBelow(rest, dir, keep);
      var dels := a + b;
      assert dels == RemovalsBelow(items, dir, keep);
      forall d | d in b ensures exists i :: 1 <= i < |items| && Under(d, dir + [items[i].name]) {
        var i :| 0 <= i < |rest| && Under(d, dir + [rest[i].name]);
        assert items[i + 1] == rest[i];
      }
      forall d | d in a ensures d !in b {
        if d in b {
          var i :| 1 <= i < |items| && Under(d, dir + [items[i].name]);
          UnderName(d, dir, items[i].name);
          UnderName(d, dir, items[0].name);
        }
      }
      LeafFirstConcat(live, a, b, keep);
      forall i | 0 <= i < |items|
        ensures dir + [items[i].name] in dels <==> Sweep(items[i], PathText(dir + [items[i].name]), keep).None?
      {
        var p := dir + [items[i].name];
        if i > 0 {
          assert rest[i - 1] == items[i] && p[|dir|] == items[i].name;
          assert p !in a by { if p in a { UnderName(p, dir, items[0].name); } }
        } else {
          assert p !in b by {
            if p in b {
              var j :| 1 <= j < |items| && Under(p, dir + [items[j].name]);
              UnderName(p, dir, items[j].name);
            }
          }
        }
      }
    }
  }

  /** Such an order is one that deletes leaves only, whatever has gone before. */
  lemma {:induction false} LeafFirstIsPostOrder(m: C.Media, dels: seq<C.Path>, keep: set<Bytes>)
    requires LeafFirst(m.live, dels, keep)
    ensures PostOrder(m, dels, keep)
    decreases |dels|
  {
    hide PathText;
    if dels != [] {
      var r, rest := C.Apply(m, C.Delete(dels[0])), dels[1..];
      forall q | q in m.live && |q| > 1 ensures q[..|q| - 1] != dels[0] { assert dels[..0] == []; }
      forall k, q | 0 <= k < |rest| && q in r.live && |q| > 1 && q[..|q| - 1] == rest[k] ensures q in rest[..k] {
        assert rest[k] == dels[k + 1] && q in dels[..k + 1];
        assert dels[..k + 1] == [dels[0]] + rest[..k];
      }
      LeafFirstIsPostOrder(r, rest, keep);
    }
  }

  // ----- nothing is left behind -----

  /** The item on the way to a path. */
  lemma {:induction false} ItemAbove(live: map<C.Path, C.Item>, items: seq<Item>, dir: C.Path, q: C.Path) returns (i: nat)
    requires Lists(live, items, dir) && Under(q, dir) && |q| > |dir| && q[..|dir| + 1] in live
    ensures i < |items| && q[..|dir| + 1] == dir + [items[i].name] && ListsItem(live, items[i], q[..|dir| + 1])
  {
    hide ListsItem;
    var p := q[..|dir| + 1];
    assert p[..|dir|] == dir;
    i :| 0 <= i < |items| && items[i].name == p[|dir|];
    assert p == dir + [items[i].name];
  }

  /** A path with something in it is a directory. */
  lemma {:induction false} InsideFolder(live: map<C.Path, C.Item>, item: Item, p: C.Path, child: C.Path)
    requires ListsItem(live, item, p) && child in live && |child| > 0 && child[..|child| - 1] == p
    ensures item.body.Folder? && Lists(live, item.body.items, p)
  {
    hide Lists;
  }

  /** A file that is not preserved goes. */
  lemma {:induction false} FileGoes(live: map<C.Path, C.Item>, items: seq<Item>, dir: C.Path, keep: set<Bytes>, q: C.Path)
    requires Lists(live, items, dir) && Under(q, dir) && |q| > |dir|
    requires forall k :: |dir| < k <= |q| ==> q[..k] in live
    requires q in live && live[q] != C.Folder && PathText(q) !in keep
    ensures q in RemovalsBelow(items, dir, keep)
    decreases |q| - |dir|
  {
    hide PathText, RemovalsBelow, Lists;
    var p := q[..|dir| + 1];
    assert p in live;
    var i := ItemAbove(live, items, dir, q);
    if |q| == |dir| + 1 {
      assert q == p;
    } else {
      var child := q[..|dir| + 2];
      assert child in live && child[..|child| - 1] == p;
      InsideFolder(live, items[i], p, child);
      FileGoes(live, items[i].body.items, p, keep, q);
    }
    GoesWithList(items, i, dir, keep, q);
  }

  lemma {:induction false} GoesWithList(items: seq<Item>, i: nat, dir: C.Path, keep: set<Bytes>, q: C.Path)
    requires i < |items| && q in RemovalsAt(items[i], dir + [items[i].name], keep)
    ensures q in RemovalsBelow(items, dir, keep)
  {
    hide RemovalsAt;
    if i > 0 { GoesWithList(items[1..], i - 1, dir, keep, q); }
  }

  lemma {:induction false} StoredGoes(live: map<C.Path, C.Item>, blobs: Blobs, items: seq<Item>, keep: set<Bytes>, p: Bytes)
    requires Lists(live, items, []) && Mirrors(live, blobs) && p in blobs && Shelved(p) && p !in keep
    ensures Elements(p) in RemovalsBelow(items, [], keep)
  {
    hide PathText, RemovalsBelow, Lists, Shelved;
    var e := Elements(p);
    TextOfElements(p);
    assert C.Readable(live, e, blobs[p]);
    assert e[..3] == e;
    forall k | 0 < k <= 3 ensures e[..k] in live {}
    FileGoes(live, items, [], keep, e);
  }

  /** The sweep of a directory tree removes leaves only, nothing that is preserved, and every stored file
      that is not: what the crash theorems assume of deletions. */
  lemma {:induction false} SweepFits(m: C.Media, blobs: Blobs, items: seq<Item>, keep: set<Bytes>)
    requires Lists(m.live, items, []) && Mirrors(m.live, blobs)
    ensures var dels := RemovalsBelow(items, [], keep);
      PostOrder(m, dels, keep) && Thorough(blobs, dels, keep) && Texts(dels) == RemovalsTop(items, keep)
  {
    hide PathText, PostOrder, RemovalsBelow, LeafFirst, Shelved, Elements, Mirrors;
    var dels := RemovalsBelow(items, [], keep);
    ListInOrder(m.live, items, [], keep);
    LeafFirstIsPostOrder(m, dels, keep);
    TextsBelow(items, [], keep);
    forall p | p in blobs && Shelved(p) && p !in keep ensures Elements(p) in dels { StoredGoes(m.live, blobs, items, keep, p); }
  }

  /** A run that collects what is on the disk ends with its result on the disk. */
  lemma {:induction false} CollectingRunEnds(env: Env, root: SearchNode, s: Repo, run: Run, m: C.Media, blobs: Blobs, ns: seq<Node>, writes: seq<C.Blob>, meta: Bytes, items: seq<Item>)
    requires Sound(env, root, s) && ProperRun(env, root, run) && Completes(env, root, s, run) && Resting(env, s, m)
    requires RunParts(env, root, s, run, blobs, ns, writes, meta)
    requires forall i :: 0 <= i < |writes| ==> C.Slot(writes[i].path)
    requires Lists(Committed(m, writes, meta).live, items, [])
    ensures var dels := RemovalsBelow(items, [], Preserved(ns));
      && Texts(dels) == RemovalsTop(items, Preserved(ns))
      && Next(env, root, s, run).Some? && Resting(env, Next(env, root, s, run).value, C.Run(m, C.Program(m, writes, meta, dels)))
  {
    hide Sound, ProperRun, Completes, RunParts, Next, Resting, Lists, RemovalsBelow, C.Run, C.Program, Committed, PostOrder, Thorough, Mirrors, Difference, C.Settled, Tidy;
    PartsFit(env, root, s, run, blobs, ns, writes, meta);
    assert OnDisk(s, m) by { RestingIsOnDisk(env, s, m); }
    CommittedMirrors(m, s.blobs, blobs, writes, meta);
    SweepFits(Committed(m, writes, meta), blobs, items, Preserved(ns));
    RunEndsResting(env, root, s, run, m, blobs, ns, writes, meta, RemovalsBelow(items, [], Preserved(ns)));
  }
}
