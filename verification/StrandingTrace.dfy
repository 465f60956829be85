/** Three backups that leave the path count wrong: of a copied file, then of a directory in its place that a
    new config only names on the way to another path, then of neither. */
module StrandingTrace {
  import opened Data
  import opened Str
  import opened Metadata
  import opened Backup
  import opened BackupFrame
  import opened RefCounts
  import opened RefCountsExact
  import opened Wiping
  import opened FixedConfig
  import opened BlobStore
  import opened Codec
  import opened Stranding

  const A: Bytes := [47, 97]
  const AB: Bytes := [47, 97, 47, 98]

  const file: PathState := RegularFile(0, 0, FileInfo(0, 0, 0, Zeros(20), 0))

  /** The config copies /a/b; it had copied /a when the first backup was made. */
  const inner: SearchNode := SearchNode(Literal([98]), Copy, [])
  const outer: SearchNode := SearchNode(Literal([97]), NoPolicy, [inner])
  const root: SearchNode := SearchNode(Literal([47]), NoPolicy, [outer])

  /** The first backup, with the earlier config, finds the file /a; this is what the second one loads. */
  const earlier: SearchNode := SearchNode(Literal([47]), NoPolicy, [SearchNode(Literal([97]), Copy, [])])
  const foundFirst: Found := Found(A, File(0, 0, 0, 0, []), Copy, Some(SearchNode(Literal([97]), Copy, [])), [])
  const newFirst: Node := Node(A, Hint(Exclusive(Added), false, false), Copy, [Point(Current, file)], [])
  const first: Node := Node(A, NoHint, Copy, [Point(Past(0), file)], [])

  /** The second one finds a directory with the file b in it. */
  const foundFile: Found := Found(AB, File(0, 0, 0, 0, []), Copy, Some(inner), [])
  const foundDirectory: Found := Found(A, Dir(0, 0, 0, 5), NoPolicy, Some(outer), [foundFile])

  const newFile: Node := Node(AB, Hint(Exclusive(Added), false, false), Copy, [Point(Current, file)], [])
  const listing: Node :=
    Node(A, Hint(Exclusive(RegularToDirectory), true, false), NoPolicy, [Point(Current, file)], [newFile])

  /** The same as the third one loads it; by then /a is gone. */
  const loadedFile: Node := Node(AB, NoHint, Copy, [Point(Past(0), file)], [])
  const loaded: Node := Node(A, NoHint, NoPolicy, [Point(Past(0), file)], [loadedFile])

  lemma {:induction false} FileIsNew(env: Env, f: Found, n: Node)
    requires f.entry == File(0, 0, 0, 0, []) && f.policy.Copy?
    requires n == Node(f.path, Hint(Exclusive(Added), false, false), Copy, [Point(Current, file)], [])
    ensures MergeAll(env, [], [f]) == [n]
  {
    assert NewNode(f) == n by { assert StateOf(f.entry) == file; }
    assert MergeAll(env, [], []) == [];
    assert SettleSubnodes(env, n, f) == [] by { assert HandleNotFoundAll(env, [], f.node, Copy) == []; }
    assert CompleteNode(env, n, f) == n;
    assert IndexOf([], f.path) == 0;
    assert MergeOne(env, [], f) == [n] + [];
    MergedOne(env, [], f);
  }

  lemma {:induction false} FirstBackup(env: Env)
    ensures InitiateBackup(env, [], [foundFirst], earlier) == [newFirst]
    ensures NormNodes([newFirst], Ids(0, [])) == [first]
  {
    FileIsNew(env, foundFirst, newFirst);
    assert HandleNotFoundAll(env, [newFirst], Some(earlier), earlier.policy) == [newFirst];
    FileIsLoaded();
    NormOne(newFirst, Ids(0, []));
  }

  lemma {:induction false} FileIsLoaded()
    ensures NormHistory([Point(Current, file)], Ids(0, [])) == [Point(Past(0), file)]
    ensures NormNodes([], Ids(0, [])) == []
  {
    assert NormState(file) == file by { assert Zeros(20)[..0] + Zeros(20) == Zeros(20); }
  }

  /** Empty files need no storing: finishing these backups changes nothing. */
  lemma {:induction false} NothingToFinish(env: Env, files: map<Bytes, Entry>, blobs: Blobs)
    ensures FinishList(env, files, blobs, [newFirst]) == Some((blobs, [newFirst]))
    ensures FinishList(env, files, blobs, [listing]) == Some((blobs, [listing]))
  {
    FinishOne(env, files, blobs, newFirst);
    FinishOne(env, files, blobs, newFile);
    FinishOne(env, files, blobs, listing);
  }

  lemma {:induction false} FinishOne(env: Env, files: map<Bytes, Entry>, blobs: Blobs, n: Node)
    requires !NeedsFinish(n) && (n.subs != [] ==> FinishList(env, files, blobs, n.subs) == Some((blobs, n.subs)))
    ensures FinishList(env, files, blobs, [n]) == Some((blobs, [n]))
  {
    assert FinishList(env, files, blobs, []) == Some((blobs, []));
    assert FinishNode(env, files, blobs, n) == Some((blobs, n)) by { assert n.(subs := n.subs) == n; }
    var one := [n];
    assert one[0] == n && one[1..] == [];
    assert [n] + [] == one;
    assert FinishList(env, files, blobs, one) == Some((blobs, [n] + []));
  }

  /** The state of a file stays, because the directory has no policy. */
  lemma {:induction false} DirectoryIsListing(env: Env)
    ensures HandleFoundNode(env, first, foundDirectory) == listing.(subs := [])
  {
    var n1 := HandlePolicyChanges(first, NoPolicy);
    assert n1 == first.(hint := Hint(NoFlags, true, false), policy := NoPolicy);
    var (h, s) := HandleNodeChanges(env, n1.hint, file, foundDirectory);
    assert h == Hint(Exclusive(RegularToDirectory), true, false) && s == file;
    assert n1.history[1..] == [];
  }

  lemma {:induction false} SecondBackup(env: Env)
    ensures InitiateBackup(env, [first], [foundDirectory], root) == [listing]
  {
    hide HandleFoundNode, MergeAll;
    DirectoryIsListing(env);
    FileIsNew(env, foundFile, newFile);
    assert IndexOf([first], A) == 0;
    assert MergeInside(env, listing.(subs := []), foundDirectory) == listing;
    assert HandleNotFoundAll(env, [newFile], Some(outer), NoPolicy) == [newFile];
    assert SettleSubnodes(env, listing, foundDirectory) == [newFile];
    assert CompleteNode(env, listing, foundDirectory) == listing by { assert !AllWiped([newFile]) by { assert !Wiped([newFile][0]); } }
    assert MergeOne(env, [first], foundDirectory) == [first][0 := listing] == [listing];
    MergedOne(env, [first], foundDirectory);
    assert HandleNotFoundAll(env, [listing], Some(root), root.policy) == [listing];
  }

  lemma {:induction false} MergedOne(env: Env, ns: seq<Node>, f: Found)
    ensures MergeAll(env, ns, [f]) == MergeOne(env, ns, f)
  {
    assert [f][1..] == [];
    assert MergeAll(env, MergeOne(env, ns, f), []) == MergeOne(env, ns, f);
  }

  lemma {:induction false} ThirdLoads()
    ensures NormNodes([listing], Ids(0, [])) == [loaded]
  {
    FileIsLoaded();
    NormOne(newFile, Ids(0, []));
    NormOne(listing, Ids(0, []));
  }

  lemma {:induction false} NormOne(n: Node, ids: Ids)
    ensures NormNodes([n], ids) == if Wiped(n) then [] else [NormNode(n, ids)]
  {
    assert [n][1..] == [];
    assert NormNodes([], ids) == [];
  }

  /** The first two backups, and what the next one loads of each. */
  function AfterFirst(env: Env): seq<Node> { NormNodes(InitiateBackup(env, [], [foundFirst], earlier), Ids(0, [])) }

  function AfterSecond(env: Env): seq<Node> { NormNodes(InitiateBackup(env, AfterFirst(env), [foundDirectory], root), Ids(0, [])) }

  /** The third backup wipes /a, keeps the node of /a/b alive below it, and counts one path that is not
      written. */
  lemma {:induction false} ThirdBackup(env: Env)
    ensures var r := InitiateBackup(env, AfterSecond(env), [], root);
      |r| == 1 && Wiped(r[0]) && |r[0].subs| == 1 && !Wiped(r[0].subs[0]) && Emitted(r) == 0
    ensures Emitted(AfterSecond(env)) + InitiateDelta(env, AfterSecond(env), [], root, Total) == 1
  {
    FirstBackup(env);
    SecondBackup(env);
    ThirdLoads();
    hide InitiateBackup, NormNodes;
    ThirdWipes(env);
    ThirdCounts(env);
  }

  lemma {:induction false} ThirdPolicy(env: Env)
    ensures SupposedPolicy(env, A, Some(root), NoPolicy) == Some(NoPolicy)
  {
    assert A == AppendPath([], [97]);
    assert !HasSlash([97]);
    SplitAppend([], [97]);
  }

  lemma {:induction false} ThirdWipes(env: Env)
    ensures var r := InitiateBackup(env, [loaded], [], root);
      r == [PrepareWipe(loaded)] && Wiped(r[0]) && r[0].subs == [loadedFile] && Emitted(r) == 0
  {
    ThirdPolicy(env);
    hide SupposedPolicy;
    assert MergeAll(env, [loaded], []) == [loaded];
    assert HandleRemovedPath(loaded, NoPolicy) == PrepareWipe(loaded);
    var r := InitiateBackup(env, [loaded], [], root);
    assert r[1..] == [];
  }

  lemma {:induction false} ThirdCounts(env: Env)
    ensures Emitted([loaded]) == 2 && InitiateDelta(env, [loaded], [], root, Total) == -1
  {
    ThirdPolicy(env);
    hide SupposedPolicy;
    assert [loaded][1..] == [] && [loadedFile][1..] == [];
    assert Emitted([loadedFile]) == 1 by { assert Emitted(loadedFile.subs) == 0; }
    assert MergeAll(env, [loaded], []) == [loaded];
    assert WipeDelta(loaded, Total) == -1;
    assert RemovedPathDelta(loaded, NoPolicy, Total) == -1;
    assert NotFoundDelta(env, loaded, Some(root), NoPolicy, Total) == -1;
    hide NotFoundDelta;
    assert NotFoundAllDelta(env, [], Some(root), NoPolicy, Total) == 0;
    assert NotFoundAllDelta(env, [loaded], Some(root), NoPolicy, Total) == -1;
    assert MergeAllDelta(env, [loaded], [], Total) == 0;
  }
}
