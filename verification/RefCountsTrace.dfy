/** A concrete pass on which the counters go wrong: a tracked path that used to be a directory and
    is a file now is switched to [copy] and found as a directory again. */
module RefCountsTrace {
  import opened Data
  import opened Str
  import opened Metadata
  import opened Backup
  import opened BackupFrame
  import opened RefCounts
  import opened RefCountsExact

  const A: Bytes := [47, 97]
  const AB: Bytes := [47, 97, 47, 98]

  const file: PathState := RegularFile(0, 0, FileInfo(0, 0, 1, Zeros(20), 0))
  const dir: PathState := Directory(0, 0, 0, 0)

  const child: Node := Node(AB, NoHint, Track, [Point(Past(0), NonExisting), Point(Past(1), file)], [])
  const parent: Node := Node(A, NoHint, Track, [Point(Past(0), file), Point(Past(1), dir)], [child])

  const foundChild: Found := Found(AB, File(0, 0, 0, 5, [7]), Copy, None, [])
  const foundParent: Found := Found(A, Dir(0, 0, 0, 5), Copy, Some(SearchNode(Literal([97]), Copy, [])), [foundChild])

  lemma {:induction false} BackupCountsGoWrong(env: Env, root: SearchNode)
    ensures !UnblockedAll([parent], [foundParent])
    ensures !Conserves(env, [parent], [foundParent], root)
  {
    assert !Unblocked(parent, foundParent) by {
      assert IndexOf([child], AB) == 0;
      assert WipesSubnodes(parent, Copy);
    }
    assert IndexOf([parent], A) == 0;
    assert DistinctPaths([foundChild]);
    assert Loaded(child) && Fresh(child);
    ConservesIffUnblocked(env, [parent], [foundParent], root);
  }

  const older: Counter := Refs(Past(1))

  lemma {:induction false} LiveTally(n: Node, c: Counter)
    requires !Wiped(n) && c.Refs?
    ensures Tally(n, c) == CountRef(n.history, c.backup) + TallyAll(n.subs, c)
  {
  }

  lemma {:induction false} CountOne(p: Point, b: BackupRef)
    ensures CountRef([p], b) == if p.backup == b then 1 else 0
  {
    assert [p][1..] == [];
  }

  lemma {:induction false} OlderReferences()
    ensures CountRef(child.history, Past(1)) == 1 && CountRef(parent.history, Past(1)) == 1
    ensures CountRef(parent.history[1..], Past(1)) == 1
    ensures TallyAll([child], older) == 1 && TallyAll([parent], older) == 2
  {
    CountOne(Point(Past(1), file), Past(1));
    CountOne(Point(Past(1), dir), Past(1));
    assert child.history[1..] == [Point(Past(1), file)];
    assert parent.history[1..] == [Point(Past(1), dir)];
    LiveTally(child, older);
    LiveTally(parent, older);
    assert TallyAll(child.subs, older) == 0;
    assert [child][1..] == [] && [parent][1..] == [];
  }

  lemma {:induction false} ParentIsTruncated()
    ensures PolicyDelta(parent, Copy, older) == -2
  {
    OlderReferences();
    WipeAllCounts([child], older);
    assert PopRemoved(parent.history) == parent.history;
    assert WipesSubnodes(parent, Copy);
  }

  lemma {:induction false} ParentIsFound(env: Env)
    ensures FoundDelta(env, parent, foundParent, older) == -2
    ensures HandleFoundNode(env, parent, foundParent).subs == [WipeRec(child)]
  {
    ParentIsTruncated();
    assert WipeAll([child]) == [WipeRec(child)];
    assert HandlePolicyChanges(parent, Copy).history == [Point(Past(0), file)];
  }

  lemma {:induction false} ChildIsFound(env: Env)
    ensures FoundDelta(env, WipeRec(child), foundChild, older) == -1
  {
    assert PopRemoved(child.history) == [Point(Past(1), file)];
    assert HandlePolicyChanges(WipeRec(child), Copy).history == [Point(Past(1), file)];
  }

  lemma {:induction false} ChildMerges(env: Env)
    ensures MergeAllDelta(env, [WipeRec(child)], [foundChild], older) == -1
  {
    ChildIsFound(env);
    var w := WipeRec(child);
    assert IndexOf([w], AB) == 0;
    var n := HandleFoundNode(env, w, foundChild);
    hide FoundDelta, HandleFoundNode, WipeRec;
    assert n.subs == [] ==> CompleteDelta(env, n, foundChild, older) == 0;
    assert [foundChild][1..] == [];
    assert n.subs == [];
  }

  lemma {:induction false} NothingLeft(env: Env, ns: seq<Node>, f: Found, c: Counter)
    requires forall i :: 0 <= i < |ns| ==> ns[i].hint != NoHint
    ensures NotFoundAllDelta(env, ns, f.node, f.policy, c) == 0
  {
    if ns != [] { NothingLeft(env, ns[1..], f, c); }
  }

  lemma {:induction false} Completed(env: Env, n: Node, f: Found, c: Counter)
    requires forall i :: 0 <= i < |n.subs| ==> n.subs[i].hint != NoHint
    requires f.policy.Copy? && !IsKind(n.hint, DirectoryToRegular) && !IsKind(n.hint, DirectoryToSymlink)
    ensures CompleteDelta(env, n, f, c) == 0
  {
    NothingLeft(env, n.subs, f, c);
  }

  lemma {:induction false} ParentTurns(env: Env)
    ensures IsKind(HandleFoundNode(env, parent, foundParent).hint, RegularToDirectory)
  {
    assert HandlePolicyChanges(parent, Copy).history == [Point(Past(0), file)];
  }

  /** Finding the wiped child takes its reference to the older backup a second time, which leaves a
      count of minus one: with the unsigned counters of the program, a wrapped one. */
  lemma {:induction false} CounterUnderflows(env: Env)
    ensures TallyAll([parent], older) == 2
    ensures MergeOneDelta(env, [parent], foundParent, older) == -3
  {
    hide FoundDelta, HandleFoundNode, WipeRec, MergeAllDelta, MergeAll, CompleteDelta, Tally, TallyAll;
    OlderReferences();
    ParentIsFound(env);
    ParentTurns(env);
    ChildMerges(env);
    assert IndexOf([parent], A) == 0;
    var n := MergeInside(env, HandleFoundNode(env, parent, foundParent), foundParent);
    MergedChild(env);
    Completed(env, n, foundParent, older);
  }

  lemma {:induction false} MergedChild(env: Env)
    ensures var r := MergeAll(env, [WipeRec(child)], [foundChild]);
      |r| == 1 && r[0].path == AB && Wiped(r[0])
  {
    var w := WipeRec(child);
    assert IndexOf([w], AB) == 0;
    var c := HandleFoundNode(env, w, foundChild);
    assert Wiped(c) && c.path == AB;
    var c1 := CompleteNode(env, c, foundChild);
    assert Wiped(c1);
    assert MergeOne(env, [w], foundChild) == [c1];
    assert MergeAll(env, [c1], []) == [c1];
  }

  /** The child is on the file system and was found, yet its node ends up wiped and is not written. */
  lemma {:induction false} FoundFileIsDropped(env: Env)
    ensures var r := MergeOne(env, [parent], foundParent);
      |r| == 1 && |r[0].subs| == 1 && r[0].subs[0].path == AB && Wiped(r[0].subs[0])
  {
    assert IndexOf([parent], A) == 0;
    var n := HandleFoundNode(env, parent, foundParent);
    assert n.subs == [WipeRec(child)] by { assert WipeAll([child]) == [WipeRec(child)]; }
    MergedChild(env);
    hide HandleFoundNode, WipeRec, MergeAll;
  }
}
