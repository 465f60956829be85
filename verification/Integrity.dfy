/** Checking stored files against their hashes (src/integrity.c): two passes that remember the result
    for every stored file, against a check that remembers nothing. */
module Integrity {
  import opened Data
  import opened Metadata
  import opened Backup
  import opened RepoPath
  import opened GarbageCollector

  /** What is found below the repository at the path of a stored file. */
  datatype Found = Regular(content: Content) | Unusual

  // ----- the check that remembers nothing -----

  /** storedFileIsHealthy() */
  predicate Healthy(env: Env, stored: map<Bytes, Found>, i: FileInfo) {
    && PathOf(i) in stored && stored[PathOf(i)].Regular?
    && |stored[PathOf(i)].content| == i.size && env.digest(stored[PathOf(i)].content) == i.hash
  }

  predicate PointIsHealthy(env: Env, stored: map<Bytes, Found>, p: Point) {
    Stored(p.state) ==> Healthy(env, stored, p.state.info)
  }

  /** A node is broken if any point of its history is. */
  predicate Broken(env: Env, stored: map<Bytes, Found>, n: Node) {
    exists i :: 0 <= i < |n.history| && !PointIsHealthy(env, stored, n.history[i])
  }

  /** All broken nodes in the order of the traversal. */
  function BrokenNodes(env: Env, stored: map<Bytes, Found>, ns: seq<Node>): seq<Node>
    decreases ns
  {
    if ns == [] then [] else BrokenWithin(env, stored, ns[0]) + BrokenNodes(env, stored, ns[1..])
  }

  function BrokenWithin(env: Env, stored: map<Bytes, Found>, n: Node): seq<Node>
    decreases n
  {
    (if Broken(env, stored, n) then [n] else []) + BrokenNodes(env, stored, n.subs)
  }

  // ----- the stored files that are looked at -----

  /** The verdict of a pass: the first one only adds up sizes. */
  predicate Verdict(env: Env, stored: map<Bytes, Found>, hashing: bool, i: FileInfo) { hashing ==> Healthy(env, stored, i) }

  /** The stored files of a history up to the first broken one. */
  function Looked(env: Env, stored: map<Bytes, Found>, hashing: bool, h: seq<Point>): seq<FileInfo> {
    if h == [] then []
    else if !Stored(h[0].state) then Looked(env, stored, hashing, h[1..])
    else [h[0].state.info] + if Verdict(env, stored, hashing, h[0].state.info) then Looked(env, stored, hashing, h[1..]) else []
  }

  function LookedAll(env: Env, stored: map<Bytes, Found>, hashing: bool, ns: seq<Node>): seq<FileInfo>
    decreases ns
  {
    if ns == [] then [] else LookedWithin(env, stored, hashing, ns[0]) + LookedAll(env, stored, hashing, ns[1..])
  }

  function LookedWithin(env: Env, stored: map<Bytes, Found>, hashing: bool, n: Node): seq<FileInfo>
    decreases n
  {
    Looked(env, stored, hashing, n.history) + LookedAll(env, stored, hashing, n.subs)
  }

  /** The files that are really checked: each one the first time its path comes up. */
  function FirstTimes(known: set<Bytes>, infos: seq<FileInfo>): seq<FileInfo>
    decreases |infos|
  {
    if infos == [] then []
    else if PathOf(infos[0]) in known then FirstTimes(known, infos[1..])
    else [infos[0]] + FirstTimes(known + {PathOf(infos[0])}, infos[1..])
  }

  function PathsOf(infos: seq<FileInfo>): set<Bytes> { if infos == [] then {} else {PathOf(infos[0])} + PathsOf(infos[1..]) }

  function Sizes(infos: seq<FileInfo>): nat { if infos == [] then 0 else infos[0].size + Sizes(infos[1..]) }

  lemma {:induction false} SamePathSameVerdict(env: Env, stored: map<Bytes, Found>, hashing: bool, i: FileInfo, j: FileInfo)
    requires PathOf(i) == PathOf(j)
    ensures Verdict(env, stored, hashing, i) == Verdict(env, stored, hashing, j) && i.size == j.size
  {
    FilePathInjective(i.hash, i.size, i.slot, j.hash, j.size, j.slot);
  }

  lemma {:induction false} FirstTimesConcat(known: set<Bytes>, a: seq<FileInfo>, b: seq<FileInfo>)
    ensures FirstTimes(known, a + b) == FirstTimes(known, a) + FirstTimes(known + PathsOf(a), b)
    decreases |a|
  {
    hide PathOf;
    if a == [] {
      assert a + b == b && known + {} == known;
    } else {
      assert (a + b)[1..] == a[1..] + b;
      assert known + PathsOf(a) == known + {PathOf(a[0])} + PathsOf(a[1..]);
      if PathOf(a[0]) in known {
        assert known + PathsOf(a) == known + PathsOf(a[1..]);
        FirstTimesConcat(known, a[1..], b);
      } else {
        FirstTimesConcat(known + {PathOf(a[0])}, a[1..], b);
      }
    }
  }

  lemma {:induction false} PathsConcat(a: seq<FileInfo>, b: seq<FileInfo>)
    ensures PathsOf(a + b) == PathsOf(a) + PathsOf(b)
  {
    hide PathOf;
    if a == [] { assert a + b == b; } else {
      assert (a + b)[1..] == a[1..] + b;
      PathsConcat(a[1..], b);
    }
  }

  lemma {:induction false} SizesConcat(a: seq<FileInfo>, b: seq<FileInfo>)
    ensures Sizes(a + b) == Sizes(a) + Sizes(b)
  {
    if a == [] { assert a + b == b; } else {
      assert (a + b)[1..] == a[1..] + b;
      SizesConcat(a[1..], b);
    }
  }

  // ----- the check that remembers -----

  /** The paths with a remembered result, the sums, and the files whose content was looked at. */
  datatype Audit = Audit(known: set<Bytes>, announced: nat, progress: nat, checks: seq<FileInfo>)

  /** After more files came up: each new one was checked once, and counted with its size. */
  function Advance(hashing: bool, a: Audit, infos: seq<FileInfo>): Audit {
    var news := FirstTimes(a.known, infos);
    Audit(a.known + PathsOf(infos),
          a.announced + (if hashing then 0 else Sizes(news)),
          a.progress + (if hashing then Sizes(news) else 0),
          a.checks + news)
  }

  lemma {:induction false} AdvanceTwice(hashing: bool, a: Audit, first: seq<FileInfo>, second: seq<FileInfo>)
    ensures Advance(hashing, Advance(hashing, a, first), second) == Advance(hashing, a, first + second)
  {
    FirstTimesConcat(a.known, first, second);
    PathsConcat(first, second);
    SizesConcat(FirstTimes(a.known, first), FirstTimes(a.known + PathsOf(first), second));
    assert a.known + PathsOf(first) + PathsOf(second) == a.known + (PathsOf(first) + PathsOf(second));
    assert a.checks + FirstTimes(a.known, first) + FirstTimes(a.known + PathsOf(first), second)
        == a.checks + (FirstTimes(a.known, first) + FirstTimes(a.known + PathsOf(first), second));
  }

  lemma {:induction false} AdvanceNone(hashing: bool, a: Audit)
    ensures Advance(hashing, a, []) == a
  {
    assert a.checks + [] == a.checks && a.known + {} == a.known;
  }

  lemma {:induction false} AdvanceOne(hashing: bool, a: Audit, i: FileInfo)
    ensures Advance(hashing, a, [i]) ==
      if PathOf(i) in a.known then a
      else Audit(a.known + {PathOf(i)}, a.announced + (if hashing then 0 else i.size), a.progress + (if hashing then i.size else 0), a.checks + [i])
  {
    hide PathOf;
    assert [i][1..] == [];
    assert FirstTimes(a.known, [i]) == if PathOf(i) in a.known then [] else [i];
    assert PathsOf([i]) == {PathOf(i)};
    assert Sizes([i]) == i.size;
    assert a.checks + [] == a.checks;
    if PathOf(i) in a.known { assert a.known + {PathOf(i)} == a.known; }
  }

  class Context {
    const env: Env
    const stored: map<Bytes, Found>
    var broken: seq<Node>
    var cache: map<Bytes, bool>
    var announced: nat
    var progress: nat
    /** The files whose content was looked at in this pass. */
    ghost var checks: seq<FileInfo>

    constructor (env: Env, stored: map<Bytes, Found>)
      ensures this.env == env && this.stored == stored
      ensures broken == [] && cache == map[] && announced == 0 && progress == 0 && checks == []
    {
      this.env, this.stored := env, stored;
      broken, cache, announced, progress, checks := [], map[], 0, 0, [];
    }

    /** The cache only says what a check would say now. */
    ghost predicate Valid(hashing: bool) reads this {
      forall i: FileInfo {:trigger PathOf(i)} :: PathOf(i) in cache ==> cache[PathOf(i)] == Verdict(env, stored, hashing, i)
    }

    ghost function Now(): Audit reads this { Audit(cache.Keys, announced, progress, checks) }

    /** attachDisposableRegion(): a new and empty cache. */
    method ForgetResults()
      modifies this`cache, this`checks
      ensures cache == map[] && checks == []
    {
      cache, checks := map[], [];
    }

    /** addToTotalFileSize() */
    method AddToTotalFileSize(i: FileInfo) returns (healthy: bool)
      modifies this`announced
      ensures healthy == Verdict(env, stored, false, i) && announced == old(announced) + i.size
    {
      announced := announced + i.size;
      healthy := true;
    }

    /** storedFileIsHealthy(): reports the recorded size as progress, whatever it finds. For a file of
        that size the hash is fileHash(), which reports as many bytes as it reads. */
    method StoredFileIsHealthy(i: FileInfo) returns (healthy: bool)
      modifies this`progress
      ensures healthy == Verdict(env, stored, true, i) && progress == old(progress) + i.size
    {
      var path := PathOf(i);
      progress := progress + i.size;
      if path !in stored || !stored[path].Regular? || |stored[path].content| != i.size { return false; }
      healthy := env.digest(stored[path].content) == i.hash;
    }

    /** historyPointIsHealthy() */
    method HistoryPointIsHealthy(p: Point, hashing: bool) returns (healthy: bool)
      requires Valid(hashing)
      modifies this`cache, this`announced, this`progress, this`checks
      ensures Valid(hashing)
      ensures healthy == (Stored(p.state) ==> Verdict(env, stored, hashing, p.state.info))
      ensures Now() == Advance(hashing, old(Now()), if Stored(p.state) then [p.state.info] else [])
    {
      hide PathOf, Advance, Verdict;
      if !p.state.RegularFile? || p.state.info.size <= FILE_HASH_SIZE {
        AdvanceNone(hashing, Now());
        return true;
      }
      var info := p.state.info;
      var path := PathOf(info);
      AdvanceOne(hashing, Now(), info);
      if path in cache { return cache[path]; }
      if hashing { healthy := StoredFileIsHealthy(info); } else { healthy := AddToTotalFileSize(info); }
      forall i: FileInfo {:trigger PathOf(i)} | PathOf(i) == path ensures Verdict(env, stored, hashing, i) == healthy {
        SamePathSameVerdict(env, stored, hashing, i, info);
      }
      cache := cache[path := healthy];
      checks := checks + [info];
      assert cache.Keys == old(cache).Keys + {path};
    }

    /** The loop over the history of a node, which stops at the first broken point. */
    method CheckHistory(h: seq<Point>, hashing: bool) returns (healthy: bool)
      requires Valid(hashing)
      modifies this`cache, this`announced, this`progress, this`checks
      ensures Valid(hashing)
      ensures healthy <==> forall i :: 0 <= i < |h| && Stored(h[i].state) ==> Verdict(env, stored, hashing, h[i].state.info)
      ensures Now() == Advance(hashing, old(Now()), Looked(env, stored, hashing, h))
    {
      hide PathOf, Verdict, Advance, Looked;
      healthy := true;
      AdvanceNone(hashing, Now());
      var k := 0;
      ghost var done: seq<FileInfo> := [];
      assert h[0..] == h && [] + Looked(env, stored, hashing, h) == Looked(env, stored, hashing, h);
      while k < |h|
        invariant 0 <= k <= |h| && Valid(hashing) && healthy
        invariant forall i :: 0 <= i < k && Stored(h[i].state) ==> Verdict(env, stored, hashing, h[i].state.info)
        invariant Looked(env, stored, hashing, h) == done + Looked(env, stored, hashing, h[k..])
        invariant Now() == Advance(hashing, old(Now()), done)
      {
        assert h[k..][0] == h[k] && h[k..][1..] == h[k + 1..];
        ghost var one := if Stored(h[k].state) then [h[k].state.info] else [];
        var ok := HistoryPointIsHealthy(h[k], hashing);
        AdvanceTwice(hashing, old(Now()), done, one);
        LookedStep(env, stored, hashing, h[k..], one);
        if !ok { return false; }
        assert done + (one + Looked(env, stored, hashing, h[k + 1..])) == done + one + Looked(env, stored, hashing, h[k + 1..]);
        done := done + one;
        k := k + 1;
      }
      assert h[k..] == [];
      NothingLooked(env, stored, hashing);
      assert done + [] == done;
    }

    /** One node of checkIntegrityRecursively(): if it is broken it is prepended to the result. */
    method CheckNode(n: Node, hashing: bool)
      requires Valid(hashing)
      modifies this`cache, this`announced, this`progress, this`checks, this`broken
      ensures Valid(hashing) && Now() == Advance(hashing, old(Now()), LookedWithin(env, stored, hashing, n))
      ensures broken == (if hashing then Reversed(BrokenWithin(env, stored, n)) else []) + old(broken)
      decreases n
    {
      hide PathOf, Verdict, Advance, Looked, Broken, Reversed;
      var healthy := CheckHistory(n.history, hashing);
      BrokenMeans(env, stored, hashing, n, healthy);
      ghost var self := if Broken(env, stored, n) then [n] else [];
      ReversedOne(n);
      ReversedNothing();
      if !healthy { broken := [n] + broken; }
      AdvanceTwice(hashing, old(Now()), Looked(env, stored, hashing, n.history), LookedAll(env, stored, hashing, n.subs));
      ReversedAppend(self, BrokenNodes(env, stored, n.subs));
      CheckRecursively(n.subs, hashing);
      assert hashing ==> broken == Reversed(BrokenNodes(env, stored, n.subs)) + (Reversed(self) + old(broken));
    }

    /** checkIntegrityRecursively() */
    method CheckRecursively(ns: seq<Node>, hashing: bool)
      requires Valid(hashing)
      modifies this`cache, this`announced, this`progress, this`checks, this`broken
      ensures Valid(hashing) && Now() == Advance(hashing, old(Now()), LookedAll(env, stored, hashing, ns))
      ensures broken == (if hashing then Reversed(BrokenNodes(env, stored, ns)) else []) + old(broken)
      decreases ns
    {
      hide PathOf, Advance, LookedWithin, BrokenWithin, Reversed;
      AdvanceNone(hashing, Now());
      ReversedNothing();
      var k := 0;
      ghost var done: seq<FileInfo>, found: seq<Node> := [], [];
      ghost var all := BrokenNodes(env, stored, ns);
      assert ns[0..] == ns && [] + LookedAll(env, stored, hashing, ns) == LookedAll(env, stored, hashing, ns) && [] + all == all;
      assert [] + broken == broken;
      while k < |ns|
        invariant 0 <= k <= |ns| && Valid(hashing)
        invariant LookedAll(env, stored, hashing, ns) == done + LookedAll(env, stored, hashing, ns[k..])
        invariant Now() == Advance(hashing, old(Now()), done)
        invariant all == found + BrokenNodes(env, stored, ns[k..])
        invariant broken == (if hashing then Reversed(found) else []) + old(broken)
      {
        assert ns[k..][0] == ns[k] && ns[k..][1..] == ns[k + 1..];
        ghost var infos, nodes := LookedWithin(env, stored, hashing, ns[k]), BrokenWithin(env, stored, ns[k]);
        CheckNode(ns[k], hashing);
        AdvanceTwice(hashing, old(Now()), done, infos);
        ReversedAppend(found, nodes);
        assert done + (infos + LookedAll(env, stored, hashing, ns[k + 1..])) == done + infos + LookedAll(env, stored, hashing, ns[k + 1..]);
        assert found + (nodes + BrokenNodes(env, stored, ns[k + 1..])) == found + nodes + BrokenNodes(env, stored, ns[k + 1..]);
        assert Reversed(nodes) + (Reversed(found) + old(broken)) == Reversed(nodes) + Reversed(found) + old(broken);
        done, found := done + infos, found + nodes;
        k := k + 1;
      }
      assert done + [] == done && found + [] == found;
    }
  }

  lemma {:induction false} NothingLooked(env: Env, stored: map<Bytes, Found>, hashing: bool)
    ensures Looked(env, stored, hashing, []) == []
  {
  }

  lemma {:induction false} LookedStep(env: Env, stored: map<Bytes, Found>, hashing: bool, h: seq<Point>, one: seq<FileInfo>)
    requires h != [] && one == if Stored(h[0].state) then [h[0].state.info] else []
    ensures Looked(env, stored, hashing, h) ==
      if Stored(h[0].state) && !Verdict(env, stored, hashing, h[0].state.info) then one else one + Looked(env, stored, hashing, h[1..])
  {
    hide Verdict;
    assert one + [] == one && [] + Looked(env, stored, hashing, h[1..]) == Looked(env, stored, hashing, h[1..]);
  }

  function Reversed(ns: seq<Node>): seq<Node> { if ns == [] then [] else Reversed(ns[1..]) + [ns[0]] }

  lemma {:induction false} ReversedNothing()
    ensures Reversed([]) == []
  {
  }

  lemma {:induction false} ReversedOne(n: Node)
    ensures Reversed([n]) == [n]
  {
    assert [n][1..] == [];
  }

  lemma {:induction false} ReversedAppend(a: seq<Node>, b: seq<Node>)
    ensures Reversed(a + b) == Reversed(b) + Reversed(a)
  {
    if a == [] { assert a + b == b; } else {
      assert (a + b)[1..] == a[1..] + b;
      ReversedAppend(a[1..], b);
    }
  }

  lemma {:induction false} BrokenMeans(env: Env, stored: map<Bytes, Found>, hashing: bool, n: Node, healthy: bool)
    requires healthy <==> forall i :: 0 <= i < |n.history| && Stored(n.history[i].state) ==> Verdict(env, stored, hashing, n.history[i].state.info)
    ensures hashing ==> (healthy <==> !Broken(env, stored, n))
    ensures !hashing ==> healthy
  {
    hide Healthy;
  }

  // ----- what the two passes report -----

  predicate DistinctFiles(a: seq<FileInfo>) { forall i, j :: 0 <= i < j < |a| ==> PathOf(a[i]) != PathOf(a[j]) }

  lemma {:induction false} FirstTimesIs(known: set<Bytes>, infos: seq<FileInfo>)
    ensures var r := FirstTimes(known, infos);
      && DistinctFiles(r) && PathsOf(r) == PathsOf(infos) - known
      && forall i :: 0 <= i < |r| ==> PathOf(r[i]) !in known
    decreases |infos|
  {
    hide PathOf;
    if infos != [] {
      if PathOf(infos[0]) in known {
        FirstTimesIs(known, infos[1..]);
      } else {
        FirstTimesIs(known + {PathOf(infos[0])}, infos[1..]);
        var rest := FirstTimes(known + {PathOf(infos[0])}, infos[1..]);
        assert ([infos[0]] + rest)[1..] == rest;
      }
    }
  }

  lemma {:induction false} PathIsSomewhere(a: seq<FileInfo>, p: Bytes) returns (k: nat)
    requires p in PathsOf(a)
    ensures k < |a| && PathOf(a[k]) == p
  {
    hide PathOf;
    if PathOf(a[0]) == p { k := 0; } else {
      k := PathIsSomewhere(a[1..], p);
      k := k + 1;
    }
  }

  lemma {:induction false} PathIsThere(a: seq<FileInfo>, k: nat)
    requires k < |a|
    ensures PathOf(a[k]) in PathsOf(a)
  {
    hide PathOf;
    if k > 0 { PathIsThere(a[1..], k - 1); }
  }

  /** Fewer different files have no greater sum. */
  lemma {:induction false} FewerIsLess(a: seq<FileInfo>, b: seq<FileInfo>)
    requires DistinctFiles(a) && PathsOf(a) <= PathsOf(b)
    ensures Sizes(a) <= Sizes(b)
    decreases |a|
  {
    hide PathOf;
    if a != [] {
      var k := PathIsSomewhere(b, PathOf(a[0]));
      var less := b[..k] + b[k + 1..];
      assert b == b[..k] + ([b[k]] + b[k + 1..]);
      SizesConcat(b[..k], [b[k]] + b[k + 1..]);
      SizesConcat(b[..k], b[k + 1..]);
      assert ([b[k]] + b[k + 1..])[1..] == b[k + 1..];
      SameSize(a[0], b[k]);
      forall p | p in PathsOf(a[1..]) ensures p in PathsOf(less) {
        var i := PathIsSomewhere(a[1..], p);
        assert PathOf(a[0]) != PathOf(a[i + 1]);
        var j := PathIsSomewhere(b, p);
        PathIsThere(less, if j < k then j else j - 1);
      }
      FewerIsLess(a[1..], less);
    }
  }

  lemma {:induction false} SameSize(i: FileInfo, j: FileInfo)
    requires PathOf(i) == PathOf(j)
    ensures i.size == j.size
  {
    FilePathInjective(i.hash, i.size, i.slot, j.hash, j.size, j.slot);
  }

  lemma {:induction false} LookedLess(env: Env, stored: map<Bytes, Found>, h: seq<Point>)
    ensures PathsOf(Looked(env, stored, true, h)) <= PathsOf(Looked(env, stored, false, h))
    ensures (forall i :: 0 <= i < |h| ==> PointIsHealthy(env, stored, h[i])) ==> Looked(env, stored, true, h) == Looked(env, stored, false, h)
  {
    hide PathOf, Healthy;
    if h != [] {
      LookedLess(env, stored, h[1..]);
      var t, f := Looked(env, stored, true, h[1..]), Looked(env, stored, false, h[1..]);
      if Stored(h[0].state) {
        var i := h[0].state.info;
        assert ([i] + t)[1..] == t && ([i] + f)[1..] == f && ([i] + [])[1..] == [];
      }
      assert forall i :: 0 <= i < |h[1..]| ==> h[1..][i] == h[i + 1];
    }
  }

  lemma {:induction false} LookedLessAll(env: Env, stored: map<Bytes, Found>, ns: seq<Node>)
    ensures PathsOf(LookedAll(env, stored, true, ns)) <= PathsOf(LookedAll(env, stored, false, ns))
    ensures BrokenNodes(env, stored, ns) == [] ==> LookedAll(env, stored, true, ns) == LookedAll(env, stored, false, ns)
    decreases ns
  {
    hide PathOf, PointIsHealthy, Looked;
    if ns != [] {
      LookedLess(env, stored, ns[0].history);
      LookedLessAll(env, stored, ns[0].subs);
      LookedLessAll(env, stored, ns[1..]);
      WithinPaths(env, stored, true, ns);
      WithinPaths(env, stored, false, ns);
      assert BrokenNodes(env, stored, ns) == [] ==> BrokenWithin(env, stored, ns[0]) == [];
    }
  }

  lemma {:induction false} WithinPaths(env: Env, stored: map<Bytes, Found>, hashing: bool, ns: seq<Node>)
    requires ns != []
    ensures PathsOf(LookedAll(env, stored, hashing, ns)) ==
      PathsOf(Looked(env, stored, hashing, ns[0].history)) + PathsOf(LookedAll(env, stored, hashing, ns[0].subs)) + PathsOf(LookedAll(env, stored, hashing, ns[1..]))
  {
    PathsConcat(Looked(env, stored, hashing, ns[0].history), LookedAll(env, stored, hashing, ns[0].subs));
    PathsConcat(LookedWithin(env, stored, hashing, ns[0]), LookedAll(env, stored, hashing, ns[1..]));
  }

  // ----- when the second pass reports everything -----

  predicate IsFile(p: Point, path: Bytes) { Stored(p.state) && PathOf(p.state.info) == path }

  /** A stored file of the history that is at, or before, the first broken point. */
  predicate ReachesIn(env: Env, stored: map<Bytes, Found>, h: seq<Point>, path: Bytes) {
    exists k :: 0 <= k < |h| && IsFile(h[k], path) && forall j :: 0 <= j < k ==> PointIsHealthy(env, stored, h[j])
  }

  /** A stored file of the history that is behind a broken point. */
  predicate HidesIn(env: Env, stored: map<Bytes, Found>, h: seq<Point>, path: Bytes) {
    exists k :: 0 <= k < |h| && IsFile(h[k], path) && exists j :: 0 <= j < k && !PointIsHealthy(env, stored, h[j])
  }

  /** Some node of the tree has the stored file before, or at, its first broken point. */
  predicate Reaches(env: Env, stored: map<Bytes, Found>, ns: seq<Node>, path: Bytes)
    decreases ns
  {
    exists i :: 0 <= i < |ns| && (ReachesIn(env, stored, ns[i].history, path) || Reaches(env, stored, ns[i].subs, path))
  }

  /** Some node of the tree has the stored file behind a broken point. */
  predicate Hides(env: Env, stored: map<Bytes, Found>, ns: seq<Node>, path: Bytes)
    decreases ns
  {
    exists i :: 0 <= i < |ns| && (HidesIn(env, stored, ns[i].history, path) || Hides(env, stored, ns[i].subs, path))
  }

  lemma {:induction false} ReachesStep(env: Env, stored: map<Bytes, Found>, h: seq<Point>, path: Bytes)
    requires h != []
    ensures ReachesIn(env, stored, h, path) <==>
      IsFile(h[0], path) || (PointIsHealthy(env, stored, h[0]) && ReachesIn(env, stored, h[1..], path))
    ensures ReachesIn(env, stored, h, path) || HidesIn(env, stored, h, path) <==>
      IsFile(h[0], path) || ReachesIn(env, stored, h[1..], path) || HidesIn(env, stored, h[1..], path)
  {
    hide IsFile, PointIsHealthy;
    var t := h[1..];
    assert forall i :: 0 <= i < |t| ==> t[i] == h[i + 1];
    if ReachesIn(env, stored, h, path) && !IsFile(h[0], path) {
      var k :| 0 <= k < |h| && IsFile(h[k], path) && forall j :: 0 <= j < k ==> PointIsHealthy(env, stored, h[j]);
      assert IsFile(t[k - 1], path);
    }
    if PointIsHealthy(env, stored, h[0]) && ReachesIn(env, stored, t, path) {
      var k :| 0 <= k < |t| && IsFile(t[k], path) && forall j :: 0 <= j < k ==> PointIsHealthy(env, stored, t[j]);
      assert IsFile(h[k + 1], path);
      assert forall j :: 0 < j < k + 1 ==> h[j] == t[j - 1];
    }
    FileIsSomewhere(env, stored, h, path);
    FileIsSomewhere(env, stored, t, path);
    if k :| 0 <= k < |h| && IsFile(h[k], path) { assert k == 0 || IsFile(t[k - 1], path); }
    if k :| 0 <= k < |t| && IsFile(t[k], path) { assert IsFile(h[k + 1], path); }
  }

  /** A stored file of a history is either reached or hidden there. */
  lemma {:induction false} FileIsSomewhere(env: Env, stored: map<Bytes, Found>, h: seq<Point>, path: Bytes)
    ensures ReachesIn(env, stored, h, path) || HidesIn(env, stored, h, path) <==> exists k :: 0 <= k < |h| && IsFile(h[k], path)
  {
    hide IsFile, PointIsHealthy;
  }

  /** The second pass looks at what is reached, the first one at everything. */
  lemma {:induction false} LookedMeans(env: Env, stored: map<Bytes, Found>, h: seq<Point>, path: Bytes)
    ensures path in PathsOf(Looked(env, stored, true, h)) <==> ReachesIn(env, stored, h, path)
    ensures path in PathsOf(Looked(env, stored, false, h)) <==> ReachesIn(env, stored, h, path) || HidesIn(env, stored, h, path)
  {
    hide PathOf, Healthy;
    if h != [] {
      LookedMeans(env, stored, h[1..], path);
      ReachesStep(env, stored, h, path);
      var t, f := Looked(env, stored, true, h[1..]), Looked(env, stored, false, h[1..]);
      if Stored(h[0].state) {
        var i := h[0].state.info;
        assert ([i] + t)[1..] == t && ([i] + f)[1..] == f && ([i] + [])[1..] == [];
      }
    }
  }

  lemma {:induction false} TreeStep(env: Env, stored: map<Bytes, Found>, ns: seq<Node>, path: Bytes)
    requires ns != []
    ensures Reaches(env, stored, ns, path) <==>
      ReachesIn(env, stored, ns[0].history, path) || Reaches(env, stored, ns[0].subs, path) || Reaches(env, stored, ns[1..], path)
    ensures Hides(env, stored, ns, path) <==>
      HidesIn(env, stored, ns[0].history, path) || Hides(env, stored, ns[0].subs, path) || Hides(env, stored, ns[1..], path)
  {
    hide ReachesIn, HidesIn;
    var t := ns[1..];
    assert forall i :: 0 <= i < |t| ==> t[i] == ns[i + 1];
    if i :| 0 <= i < |t| && (ReachesIn(env, stored, t[i].history, path) || Reaches(env, stored, t[i].subs, path)) { assert t[i] == ns[i + 1]; }
    if i :| 0 <= i < |t| && (HidesIn(env, stored, t[i].history, path) || Hides(env, stored, t[i].subs, path)) { assert t[i] == ns[i + 1]; }
    if i :| 0 <= i < |ns| && (ReachesIn(env, stored, ns[i].history, path) || Reaches(env, stored, ns[i].subs, path)) {
      assert i == 0 || t[i - 1] == ns[i];
    }
    if i :| 0 <= i < |ns| && (HidesIn(env, stored, ns[i].history, path) || Hides(env, stored, ns[i].subs, path)) {
      assert i == 0 || t[i - 1] == ns[i];
    }
  }

  lemma {:induction false} LookedAllMeans(env: Env, stored: map<Bytes, Found>, ns: seq<Node>, path: Bytes)
    ensures path in PathsOf(LookedAll(env, stored, true, ns)) <==> Reaches(env, stored, ns, path)
    ensures path in PathsOf(LookedAll(env, stored, false, ns)) <==> Reaches(env, stored, ns, path) || Hides(env, stored, ns, path)
    decreases ns
  {
    hide PathOf, Looked, ReachesIn, HidesIn;
    if ns != [] {
      LookedMeans(env, stored, ns[0].history, path);
      LookedAllMeans(env, stored, ns[0].subs, path);
      LookedAllMeans(env, stored, ns[1..], path);
      WithinPaths(env, stored, true, ns);
      WithinPaths(env, stored, false, ns);
      TreeStep(env, stored, ns, path);
    }
  }

  /** Files that are stored on their own have more bytes than a hash. */
  predicate AllLarge(infos: seq<FileInfo>) { forall i :: 0 <= i < |infos| ==> infos[i].size > FILE_HASH_SIZE }

  lemma {:induction false} OnlyStored(env: Env, stored: map<Bytes, Found>, hashing: bool, h: seq<Point>)
    ensures AllLarge(Looked(env, stored, hashing, h))
  {
    hide PathOf, Verdict;
    if h != [] { OnlyStored(env, stored, hashing, h[1..]); }
  }

  lemma {:induction false} OnlyStoredAll(env: Env, stored: map<Bytes, Found>, hashing: bool, ns: seq<Node>)
    ensures AllLarge(LookedAll(env, stored, hashing, ns))
    decreases ns
  {
    hide Looked;
    if ns != [] {
      OnlyStored(env, stored, hashing, ns[0].history);
      OnlyStoredAll(env, stored, hashing, ns[0].subs);
      OnlyStoredAll(env, stored, hashing, ns[1..]);
      assert AllLarge(LookedWithin(env, stored, hashing, ns[0]));
    }
  }

  lemma {:induction false} FirstTimesAreFrom(known: set<Bytes>, infos: seq<FileInfo>)
    requires AllLarge(infos)
    ensures AllLarge(FirstTimes(known, infos))
    decreases |infos|
  {
    hide PathOf;
    if infos != [] {
      FirstTimesAreFrom(known, infos[1..]);
      FirstTimesAreFrom(known + {PathOf(infos[0])}, infos[1..]);
    }
  }

  /** Missing one file makes the sum smaller. */
  lemma {:induction false} MissingIsLess(a: seq<FileInfo>, b: seq<FileInfo>, p: Bytes)
    requires DistinctFiles(a) && PathsOf(a) <= PathsOf(b) && p in PathsOf(b) && p !in PathsOf(a)
    requires AllLarge(b)
    ensures Sizes(a) < Sizes(b)
  {
    hide PathOf;
    var k := PathIsSomewhere(b, p);
    var less := b[..k] + b[k + 1..];
    assert b == b[..k] + ([b[k]] + b[k + 1..]);
    SizesConcat(b[..k], [b[k]] + b[k + 1..]);
    SizesConcat(b[..k], b[k + 1..]);
    assert ([b[k]] + b[k + 1..])[1..] == b[k + 1..];
    forall q | q in PathsOf(a) ensures q in PathsOf(less) {
      var j := PathIsSomewhere(b, q);
      PathIsThere(less, if j < k then j else j - 1);
    }
    FewerIsLess(a, less);
  }

  /** The progress reaches the announced sum exactly if every stored file behind a broken point of some
      node is also before, or at, the first broken point of some node. */
  lemma {:induction false} ProgressIsCompleteIff(env: Env, stored: map<Bytes, Found>, ns: seq<Node>)
    ensures Sizes(FirstTimes({}, LookedAll(env, stored, true, ns))) == Sizes(FirstTimes({}, LookedAll(env, stored, false, ns)))
      <==> forall p :: Hides(env, stored, ns, p) ==> Reaches(env, stored, ns, p)
  {
    hide PathOf, LookedAll, FirstTimes, PathsOf, Sizes, Hides, Reaches;
    var all, seen := LookedAll(env, stored, false, ns), LookedAll(env, stored, true, ns);
    FirstTimesIs({}, all);
    FirstTimesIs({}, seen);
    forall p
      ensures p in PathsOf(seen) <==> Reaches(env, stored, ns, p)
      ensures p in PathsOf(all) <==> Reaches(env, stored, ns, p) || Hides(env, stored, ns, p)
    {
      LookedAllMeans(env, stored, ns, p);
    }
    var a, b := FirstTimes({}, seen), FirstTimes({}, all);
    if forall p :: Hides(env, stored, ns, p) ==> Reaches(env, stored, ns, p) {
      FewerIsLess(a, b);
      FewerIsLess(b, a);
    } else {
      var p :| Hides(env, stored, ns, p) && !Reaches(env, stored, ns, p);
      OnlyStoredAll(env, stored, false, ns);
      FirstTimesAreFrom({}, all);
      assert p in PathsOf(all) && p !in PathsOf(seen);
      LookedLessAll(env, stored, ns);
      assert PathsOf(a) == PathsOf(seen) && PathsOf(b) == PathsOf(all);
      MissingIsLess(a, b, p);
      assert Sizes(a) < Sizes(b);
      assert !(Hides(env, stored, ns, p) ==> Reaches(env, stored, ns, p));
    }
  }

  /** checkIntegrity(): the broken nodes are exactly those with an unhealthy point, each once; every
      stored file is read at most once; the progress never exceeds the announced sum, and reaches it
      exactly if every file that a broken point hides from the second pass is reached elsewhere. */
  method CheckIntegrity(env: Env, stored: map<Bytes, Found>, ns: seq<Node>) returns (broken: seq<Node>, announced: nat, progress: nat, ghost checks: seq<FileInfo>)
    ensures broken == Reversed(BrokenNodes(env, stored, ns))
    ensures checks == FirstTimes({}, LookedAll(env, stored, true, ns)) && DistinctFiles(checks) && progress == Sizes(checks)
    ensures announced == Sizes(FirstTimes({}, LookedAll(env, stored, false, ns)))
    ensures progress <= announced && (broken == [] ==> progress == announced)
    ensures progress == announced <==> forall p :: Hides(env, stored, ns, p) ==> Reaches(env, stored, ns, p)
  {
    hide PathOf, Reversed, FirstTimes, PathsOf, Sizes, LookedAll, BrokenNodes, Hides, Reaches;
    var ctx := new Context(env, stored);
    assert ctx.Now() == Audit({}, 0, 0, []);
    ctx.CheckRecursively(ns, false);
    announced := ctx.announced;
    ctx.ForgetResults();
    assert ctx.Now() == Audit({}, announced, 0, []);
    ctx.CheckRecursively(ns, true);
    broken, progress, checks := ctx.broken, ctx.progress, ctx.checks;
    assert Reversed(BrokenNodes(env, stored, ns)) + [] == Reversed(BrokenNodes(env, stored, ns));
    ghost var all, seen := LookedAll(env, stored, false, ns), LookedAll(env, stored, true, ns);
    FirstTimesIs({}, all);
    FirstTimesIs({}, seen);
    LookedLessAll(env, stored, ns);
    FewerIsLess(FirstTimes({}, seen), FirstTimes({}, all));
    ReversedLength(BrokenNodes(env, stored, ns));
    ProgressIsCompleteIff(env, stored, ns);
    assert [] + checks == checks;
  }

  lemma {:induction false} ReversedLength(ns: seq<Node>)
    ensures |Reversed(ns)| == |ns|
  {
    if ns != [] { ReversedLength(ns[1..]); }
  }

  // ----- a check that falls short -----

  const FIRST: FileInfo := FileInfo(0, 0, 21, Zeros(20), 0)
  const SECOND: FileInfo := FileInfo(0, 0, 21, [1] + Zeros(19), 0)

  /** A tracked file that changed once; neither of its contents is in the repository any more. */
  const CHANGED: Node := Node([47, 97], NoHint, Track,
    [Point(Past(0), RegularFile(0, 0, FIRST)), Point(Past(1), RegularFile(0, 0, SECOND))], [])

  /** The second pass reports one of two files of 21 bytes. */
  lemma {:induction false} ProgressFallsShort(env: Env)
    ensures Sizes(FirstTimes({}, LookedAll(env, map[], false, [CHANGED]))) == 42
    ensures Sizes(FirstTimes({}, LookedAll(env, map[], true, [CHANGED]))) == 21
  {
    hide FilePath;
    ShortHistory(env);
    assert PathOf(FIRST) != PathOf(SECOND) by {
      assert FIRST.hash[0] != SECOND.hash[0];
      if PathOf(FIRST) == PathOf(SECOND) { FilePathInjective(FIRST.hash, 21, 0, SECOND.hash, 21, 0); }
    }
    NoSubnodes(env, false);
    NoSubnodes(env, true);
    assert [FIRST, SECOND][1..] == [SECOND] && [SECOND][1..] == [] && [FIRST][1..] == [];
    assert {} + {PathOf(FIRST)} == {PathOf(FIRST)};
    assert FirstTimes({PathOf(FIRST)}, [SECOND]) == [SECOND] + FirstTimes({PathOf(FIRST)} + {PathOf(SECOND)}, []);
    assert FirstTimes({}, [FIRST, SECOND]) == [FIRST, SECOND];
    assert FirstTimes({}, [FIRST]) == [FIRST];
    assert Sizes([SECOND]) == 21;
  }

  lemma {:induction false} NoSubnodes(env: Env, hashing: bool)
    ensures LookedAll(env, map[], hashing, [CHANGED]) == Looked(env, map[], hashing, CHANGED.history)
  {
    assert [CHANGED][1..] == [];
    assert LookedAll(env, map[], hashing, CHANGED.subs) == [];
    assert LookedWithin(env, map[], hashing, CHANGED) == Looked(env, map[], hashing, CHANGED.history);
  }

  lemma {:induction false} ShortHistory(env: Env)
    ensures Looked(env, map[], true, CHANGED.history) == [FIRST]
    ensures Looked(env, map[], false, CHANGED.history) == [FIRST, SECOND]
  {
    hide PathOf;
    var h := CHANGED.history;
    assert h[1..] == [Point(Past(1), RegularFile(0, 0, SECOND))] && h[1..][1..] == [];
    assert Looked(env, map[], false, h[1..]) == [SECOND] by { assert Looked(env, map[], false, []) == []; }
    assert !Healthy(env, map[], FIRST);
  }
}
