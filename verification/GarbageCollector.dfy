/** Garbage collection (src/garbage-collector.c) on top of post-order conditional removal
    (src/safe-wrappers.c:546-573). */
module GarbageCollector {
  import opened Data
  import opened Str
  import opened Metadata
  import opened Backup
  import opened Codec
  import opened RepoPath

  /** What is on disk below the repository. */
  datatype Item = Item(name: Bytes, body: Body)
  datatype Body = Folder(items: seq<Item>) | Regular(size: nat) | Special

  // ----- what to preserve -----

  predicate Stored(s: PathState) { s.RegularFile? && s.info.size > FILE_HASH_SIZE }

  function PointPaths(h: seq<Point>): set<Bytes> {
    if h == [] then {}
    else (if Stored(h[0].state) then {PathOf(h[0].state.info)} else {}) + PointPaths(h[1..])
  }

  /** populateTableRecursively(): wiped nodes are skipped with everything below them. */
  function ReferencedPaths(ns: seq<Node>): set<Bytes>
    decreases ns
  {
    if ns == [] then {}
    else (if Wiped(ns[0]) then {} else PointPaths(ns[0].history) + ReferencedPaths(ns[0].subs)) + ReferencedPaths(ns[1..])
  }

  const CONFIG: Bytes := [99, 111, 110, 102, 105, 103]
  const METADATA: Bytes := [109, 101, 116, 97, 100, 97, 116, 97]
  const LOCKFILE: Bytes := [108, 111, 99, 107, 102, 105, 108, 101]

  function Preserved(ns: seq<Node>): set<Bytes> { {CONFIG, METADATA, LOCKFILE} + ReferencedPaths(ns) }

  lemma {:induction false} PointPathsConcat(a: seq<Point>, b: seq<Point>)
    ensures PointPaths(a + b) == PointPaths(a) + PointPaths(b)
  {
    if a == [] { assert a + b == b; } else {
      assert (a + b)[1..] == a[1..] + b;
      PointPathsConcat(a[1..], b);
    }
  }

  lemma {:induction false} PointPathsNorm(h: seq<Point>, ids: Ids)
    ensures PointPaths(NormHistory(h, ids)) == PointPaths(h)
  {
    if h != [] {
      assert NormHistory(h, ids)[1..] == NormHistory(h[1..], ids);
      PointPathsNorm(h[1..], ids);
    }
  }

  lemma {:induction false} ReferencedConcat(a: seq<Node>, b: seq<Node>)
    ensures ReferencedPaths(a + b) == ReferencedPaths(a) + ReferencedPaths(b)
  {
    if a == [] { assert a + b == b; } else {
      assert (a + b)[1..] == a[1..] + b;
      ReferencedConcat(a[1..], b);
    }
  }

  /** The preserved files are exactly those that the written metadata refers to: the collector,
      which runs on the tree in memory, and a reader of the file agree. */
  lemma {:induction false} ReferencedAsWritten(ns: seq<Node>, ids: Ids)
    ensures ReferencedPaths(NormNodes(ns, ids)) == ReferencedPaths(ns)
    decreases ns
  {
    hide PathOf;
    if ns != [] {
      ReferencedAsWritten(ns[1..], ids);
      var last := if Wiped(ns[0]) then [] else [NormNode(ns[0], ids)];
      ReferencedConcat(NormNodes(ns[1..], ids), last);
      if !Wiped(ns[0]) {
        PointPathsNorm(ns[0].history, ids);
        ReferencedAsWritten(ns[0].subs, ids);
        assert last[1..] == [];
      }
    }
  }

  // ----- removal -----

  function Below(path: Bytes, name: Bytes): Bytes { AppendPath(path, name) }

  /** removeRecursivelyIf(): what is left of an item, or None if it was removed. */
  function Sweep(item: Item, path: Bytes, keep: set<Bytes>): Option<Item>
    decreases item, 1
  {
    var rest := if item.body.Folder? then SweepAll(item.body.items, path, keep) else [];
    if rest == [] && path !in keep then None
    else Some(if item.body.Folder? then item.(body := Folder(rest)) else item)
  }

  function SweepAll(items: seq<Item>, path: Bytes, keep: set<Bytes>): seq<Item>
    decreases items, 0
  {
    if items == [] then []
    else
      var first := Sweep(items[0], Below(path, items[0].name), keep);
      (if first.None? then [] else [first.value]) + SweepAll(items[1..], path, keep)
  }

  /** What is removed, in order: what is inside a directory before the directory. */
  function Removals(item: Item, path: Bytes, keep: set<Bytes>): seq<Bytes>
    decreases item, 1
  {
    (if item.body.Folder? then RemovalsIn(item.body.items, path, keep) else [])
    + if Sweep(item, path, keep).None? then [path] else []
  }

  function RemovalsIn(items: seq<Item>, path: Bytes, keep: set<Bytes>): seq<Bytes>
    decreases items, 0
  {
    if items == [] then []
    else Removals(items[0], Below(path, items[0].name), keep) + RemovalsIn(items[1..], path, keep)
  }

  /** An item is needed if it, or something below it, is preserved. */
  predicate Needed(item: Item, path: Bytes, keep: set<Bytes>)
    decreases item, 1
  {
    path in keep || (item.body.Folder? && AnyNeeded(item.body.items, path, keep))
  }

  predicate AnyNeeded(items: seq<Item>, path: Bytes, keep: set<Bytes>)
    decreases items, 0
  {
    items != [] && (Needed(items[0], Below(path, items[0].name), keep) || AnyNeeded(items[1..], path, keep))
  }

  function Files(item: Item, path: Bytes): set<Bytes>
    decreases item, 1
  {
    if item.body.Folder? then FilesIn(item.body.items, path) else {path}
  }

  /** The paths of everything that is not a directory. */
  function FilesIn(items: seq<Item>, path: Bytes): set<Bytes>
    decreases items, 0
  {
    if items == [] then {} else Files(items[0], Below(path, items[0].name)) + FilesIn(items[1..], path)
  }

  function Count(item: Item): nat
    decreases item, 1
  {
    1 + if item.body.Folder? then CountIn(item.body.items) else 0
  }

  function CountIn(items: seq<Item>): nat
    decreases items, 0
  {
    if items == [] then 0 else Count(items[0]) + CountIn(items[1..])
  }

  function Size(item: Item): nat
    decreases item, 1
  {
    match item.body case Folder(items) => SizeIn(items) case Regular(n) => n case Special => 0
  }

  function SizeIn(items: seq<Item>): nat
    decreases items, 0
  {
    if items == [] then 0 else Size(items[0]) + SizeIn(items[1..])
  }

  /** An item survives exactly if it is needed; what survives below it are exactly the needed
      items; no preserved file is lost and no other file is left. */
  lemma {:induction false} SweepIsExact(item: Item, path: Bytes, keep: set<Bytes>)
    ensures Sweep(item, path, keep).Some? <==> Needed(item, path, keep)
    ensures Sweep(item, path, keep).Some? ==> Sweep(item, path, keep).value.name == item.name
    ensures (if Sweep(item, path, keep).Some? then Files(Sweep(item, path, keep).value, path) else {}) == Files(item, path) * keep
    decreases item, 1
  {
    if item.body.Folder? { SweepAllIsExact(item.body.items, path, keep); }
  }

  lemma {:induction false} SweepAllIsExact(items: seq<Item>, path: Bytes, keep: set<Bytes>)
    ensures SweepAll(items, path, keep) != [] <==> AnyNeeded(items, path, keep)
    ensures FilesIn(SweepAll(items, path, keep), path) == FilesIn(items, path) * keep
    decreases items, 0
  {
    if items != [] {
      SweepIsExact(items[0], Below(path, items[0].name), keep);
      SweepAllIsExact(items[1..], path, keep);
      var first := Sweep(items[0], Below(path, items[0].name), keep);
      if first.None? {
        assert SweepAll(items, path, keep) == SweepAll(items[1..], path, keep);
      } else {
        assert SweepAll(items, path, keep)[1..] == SweepAll(items[1..], path, keep);
      }
    }
  }

  /** Everything left is needed: sweeping again removes nothing. */
  lemma {:induction false} SweepIsIdempotent(items: seq<Item>, path: Bytes, keep: set<Bytes>)
    ensures SweepAll(SweepAll(items, path, keep), path, keep) == SweepAll(items, path, keep)
    decreases items, 0
  {
    if items != [] {
      var first := Sweep(items[0], Below(path, items[0].name), keep);
      var rest := SweepAll(items[1..], path, keep);
      SweepIsIdempotent(items[1..], path, keep);
      if first.None? {
        assert SweepAll(items, path, keep) == rest;
      } else {
        SweepIsExact(items[0], Below(path, items[0].name), keep);
        if items[0].body.Folder? {
          SweepIsIdempotent(items[0].body.items, Below(path, items[0].name), keep);
        }
        assert Sweep(first.value, Below(path, first.value.name), keep) == first;
        assert SweepAll(items, path, keep) == [first.value] + rest;
        assert ([first.value] + rest)[1..] == rest;
      }
    }
  }

  lemma {:induction false} RemovalsUpTo(items: seq<Item>, i: nat, path: Bytes, keep: set<Bytes>)
    requires i < |items|
    ensures RemovalsIn(items[..i + 1], path, keep)
         == RemovalsIn(items[..i], path, keep) + Removals(items[i], Below(path, items[i].name), keep)
  {
    hide Removals;
    if i == 0 {
      assert items[..1][1..] == [] && items[..0] == [];
    } else {
      assert items[..i + 1][1..] == items[1..][..i] && items[..i][1..] == items[1..][..i - 1];
      RemovalsUpTo(items[1..], i - 1, path, keep);
    }
  }

  function RemovalsTop(items: seq<Item>, keep: set<Bytes>): seq<Bytes> {
    if items == [] then [] else Removals(items[0], items[0].name, keep) + RemovalsTop(items[1..], keep)
  }

  lemma {:induction false} RemovalsTopUpTo(items: seq<Item>, i: nat, keep: set<Bytes>)
    requires i < |items|
    ensures RemovalsTop(items[..i + 1], keep) == RemovalsTop(items[..i], keep) + Removals(items[i], items[i].name, keep)
  {
    hide Removals;
    if i == 0 {
      assert items[..1][1..] == [] && items[..0] == [];
    } else {
      assert items[..i + 1][1..] == items[1..][..i] && items[..i][1..] == items[1..][..i - 1];
      RemovalsTopUpTo(items[1..], i - 1, keep);
    }
  }

  lemma {:induction false} NothingIsLeft(keep: set<Bytes>)
    ensures SweepTop([], keep) == [] && RemovalsTop([], keep) == [] && CountIn([]) == 0 && SizeIn([]) == 0
  {
  }

  lemma {:induction false} TopStep(items: seq<Item>, i: nat, keep: set<Bytes>)
    requires i < |items|
    ensures var first := Sweep(items[i], items[i].name, keep);
      SweepTop(items[i..], keep) == (if first.None? then [] else [first.value]) + SweepTop(items[i + 1..], keep)
    ensures CountIn(items[i..]) == Count(items[i]) + CountIn(items[i + 1..])
    ensures SizeIn(items[i..]) == Size(items[i]) + SizeIn(items[i + 1..])
  {
    hide Sweep;
    assert items[i..][0] == items[i] && items[i..][1..] == items[i + 1..];
  }

  lemma {:induction false} NothingIsInside(path: Bytes, keep: set<Bytes>)
    ensures SweepAll([], path, keep) == [] && RemovalsIn([], path, keep) == [] && CountIn([]) == 0 && SizeIn([]) == 0
  {
  }

  lemma {:induction false} InsideStep(items: seq<Item>, i: nat, path: Bytes, keep: set<Bytes>)
    requires i < |items|
    ensures var first := Sweep(items[i], Below(path, items[i].name), keep);
      SweepAll(items[i..], path, keep) == (if first.None? then [] else [first.value]) + SweepAll(items[i + 1..], path, keep)
    ensures CountIn(items[i..]) == Count(items[i]) + CountIn(items[i + 1..])
    ensures SizeIn(items[i..]) == Size(items[i]) + SizeIn(items[i + 1..])
  {
    hide Sweep;
    assert items[i..][0] == items[i] && items[i..][1..] == items[i + 1..];
  }

  // ----- in place -----

  class Collector {
    const keep: set<Bytes>
    var deletedCount: nat
    var deletedSize: nat
    ghost var removed: seq<Bytes>

    constructor (keep: set<Bytes>)
      ensures this.keep == keep && deletedCount == 0 && deletedSize == 0 && removed == []
    {
      this.keep, deletedCount, deletedSize, removed := keep, 0, 0, [];
    }

    /** shouldBeRemoved() */
    method ShouldBeRemoved(path: Bytes, body: Body) returns (remove: bool)
      modifies this
      ensures remove <==> path !in keep
      ensures deletedCount == old(deletedCount) + if remove then 1 else 0
      ensures deletedSize == old(deletedSize) + if remove && body.Regular? then body.size else 0
      ensures removed == old(removed)
    {
      if path in keep { return false; }
      deletedCount := deletedCount + 1;
      if body.Regular? { deletedSize := deletedSize + body.size; }
      remove := true;
    }

    /** removeRecursivelyIf(): the statistics are what was removed. */
    method RemoveRecursivelyIf(item: Item, path: Bytes) returns (r: Option<Item>)
      modifies this
      ensures r == Sweep(item, path, keep)
      ensures deletedCount == old(deletedCount) + Count(item) - (if r.Some? then Count(r.value) else 0)
      ensures deletedSize == old(deletedSize) + Size(item) - (if r.Some? then Size(r.value) else 0)
      ensures removed == old(removed) + Removals(item, path, keep)
      decreases item, 1
    {
      var needed := false;
      var left := item;
      if item.body.Folder? {
        var rest := RemoveInside(item.body.items, path);
        needed := rest != [];
        left := item.(body := Folder(rest));
      }
      if !needed {
        var remove := ShouldBeRemoved(path, item.body);
        if remove {
          removed := removed + [path];
          return None;
        }
      }
      r := Some(left);
    }

    /** The loop over a directory. */
    method RemoveInside(items: seq<Item>, path: Bytes) returns (rest: seq<Item>)
      modifies this
      ensures rest == SweepAll(items, path, keep)
      ensures deletedCount + CountIn(rest) == old(deletedCount) + CountIn(items)
      ensures deletedSize + SizeIn(rest) == old(deletedSize) + SizeIn(items)
      ensures removed == old(removed) + RemovalsIn(items, path, keep)
      decreases items, 0
    {
      hide Sweep, Removals, SweepAll, RemovalsIn, CountIn, SizeIn;
      rest := [];
      var i := 0;
      assert items[0..] == items && items[..0] == [];
      NothingIsInside(path, keep);
      while i < |items|
        invariant 0 <= i <= |items|
        invariant SweepAll(items, path, keep) == rest + SweepAll(items[i..], path, keep)
        invariant deletedCount + CountIn(rest) + CountIn(items[i..]) == old(deletedCount) + CountIn(items)
        invariant deletedSize + SizeIn(rest) + SizeIn(items[i..]) == old(deletedSize) + SizeIn(items)
        invariant removed == old(removed) + RemovalsIn(items[..i], path, keep)
      {
        RemovalsUpTo(items, i, path, keep);
        InsideStep(items, i, path, keep);
        var left := RemoveRecursivelyIf(items[i], Below(path, items[i].name));
        if left.Some? {
          CountAppend(rest, left.value);
          ghost var after := SweepAll(items[i + 1..], path, keep);
          assert rest + ([left.value] + after) == rest + [left.value] + after;
          rest := rest + [left.value];
        }
        i := i + 1;
      }
      assert rest + [] == rest && items[..i] == items && items[i..] == [];
    }

    /** collectGarbageProgress(): the top-level items are named relative to the repository. */
    method CollectGarbage(items: seq<Item>) returns (rest: seq<Item>)
      requires deletedCount == 0 && deletedSize == 0 && removed == []
      modifies this
      ensures rest == SweepTop(items, keep)
      ensures deletedCount == CountIn(items) - CountIn(rest) && deletedSize == SizeIn(items) - SizeIn(rest)
      ensures removed == RemovalsTop(items, keep)
    {
      hide Sweep, Removals, SweepTop, RemovalsTop, CountIn, SizeIn;
      rest := [];
      var i := 0;
      assert items[0..] == items && items[..0] == [];
      NothingIsLeft(keep);
      while i < |items|
        invariant 0 <= i <= |items|
        invariant SweepTop(items, keep) == rest + SweepTop(items[i..], keep)
        invariant deletedCount + CountIn(rest) + CountIn(items[i..]) == CountIn(items)
        invariant deletedSize + SizeIn(rest) + SizeIn(items[i..]) == SizeIn(items)
        invariant removed == RemovalsTop(items[..i], keep)
      {
        RemovalsTopUpTo(items, i, keep);
        TopStep(items, i, keep);
        var left := RemoveRecursivelyIf(items[i], items[i].name);
        if left.Some? {
          CountAppend(rest, left.value);
          ghost var after := SweepTop(items[i + 1..], keep);
          assert rest + ([left.value] + after) == rest + [left.value] + after;
          rest := rest + [left.value];
        }
        i := i + 1;
      }
      assert rest + [] == rest && items[..i] == items && items[i..] == [];
    }
  }

  function SweepTop(items: seq<Item>, keep: set<Bytes>): seq<Item> {
    if items == [] then []
    else
      var first := Sweep(items[0], items[0].name, keep);
      (if first.None? then [] else [first.value]) + SweepTop(items[1..], keep)
  }

  function FilesTop(items: seq<Item>): set<Bytes> {
    if items == [] then {} else Files(items[0], items[0].name) + FilesTop(items[1..])
  }

  lemma {:induction false} CountAppend(items: seq<Item>, x: Item)
    ensures CountIn(items + [x]) == CountIn(items) + Count(x)
    ensures SizeIn(items + [x]) == SizeIn(items) + Size(x)
  {
    if items == [] {
      assert (items + [x])[1..] == [];
    } else {
      assert (items + [x])[1..] == items[1..] + [x];
      CountAppend(items[1..], x);
    }
  }

  /** After a collection the files in the repository are exactly the present ones that are config,
      metadata, lockfile, or referred to by the metadata that was written. */
  lemma {:induction false} CollectionIsExact(items: seq<Item>, ns: seq<Node>, ids: Ids)
    ensures FilesTop(SweepTop(items, Preserved(ns)))
         == FilesTop(items) * ({CONFIG, METADATA, LOCKFILE} + ReferencedPaths(NormNodes(ns, ids)))
  {
    ReferencedAsWritten(ns, ids);
    SweepTopFiles(items, Preserved(ns));
  }

  lemma {:induction false} SweepTopFiles(items: seq<Item>, keep: set<Bytes>)
    ensures FilesTop(SweepTop(items, keep)) == FilesTop(items) * keep
  {
    hide Sweep, Files;
    if items != [] {
      SweepIsExact(items[0], items[0].name, keep);
      SweepTopFiles(items[1..], keep);
      var first := Sweep(items[0], items[0].name, keep);
      if first.None? {
        assert SweepTop(items, keep) == SweepTop(items[1..], keep);
      } else {
        assert SweepTop(items, keep)[1..] == SweepTop(items[1..], keep);
      }
    }
  }

  /** populateTableRecursively() with a table that is filled while the lists are walked. */
  method PopulateTable(table: set<Bytes>, ns: seq<Node>) returns (r: set<Bytes>)
    ensures r == table + ReferencedPaths(ns)
    decreases ns
  {
    hide PathOf;
    r := table;
    var i := 0;
    assert ns[0..] == ns;
    while i < |ns|
      invariant 0 <= i <= |ns|
      invariant r + ReferencedPaths(ns[i..]) == table + ReferencedPaths(ns)
    {
      assert ns[i..][0] == ns[i] && ns[i..][1..] == ns[i + 1..];
      if !IsKind(ns[i].hint, NotPartOfRepository) {
        var h := ns[i].history;
        var k := 0;
        ghost var before := r;
        assert h[0..] == h;
        while k < |h|
          invariant 0 <= k <= |h|
          invariant r + PointPaths(h[k..]) == before + PointPaths(h)
        {
          assert h[k..][0] == h[k] && h[k..][1..] == h[k + 1..];
          if h[k].state.RegularFile? && h[k].state.info.size > FILE_HASH_SIZE {
            r := r + {PathOf(h[k].state.info)};
          }
          k := k + 1;
        }
        r := PopulateTable(r, ns[i].subs);
      }
      i := i + 1;
    }
  }
}
