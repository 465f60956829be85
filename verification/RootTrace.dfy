/** A config that copies the root directory: it parses, the search finds a file, and the metadata that
    the backup writes is rejected by the next run. */
module RootTrace {
  import opened Data
  import opened Str
  import opened Metadata
  import opened Backup
  import opened BackupFrame
  import opened Codec
  import opened CodecRoundTrip
  import opened FixedConfig
  import opened Search
  import opened SearchRules
  import opened SearchTree
  import opened ConfigTree

  /** The section for copied paths, and the root directory. */
  const CONFIG: Bytes := COPY + [NEWLINE] + [SLASH]

  lemma {:induction false} ConfigLines()
    ensures Lines(CONFIG) == [COPY, [SLASH]]
  {
    var n := LineEnd(CONFIG);
    assert forall i :: 0 <= i < |COPY| ==> CONFIG[i] == COPY[i] && COPY[i] != NEWLINE;
    assert CONFIG[|COPY|] == NEWLINE;
    assert n == |COPY|;
    assert CONFIG[..n] == COPY && CONFIG[n + 1..] == [SLASH];
    LastLine();
  }

  lemma {:induction false} LastLine()
    ensures Lines([SLASH]) == [[SLASH]]
  {
    var s: Bytes := [SLASH];
    assert s[1..] == [] && s[..1] == s;
    assert LineEnd(s) == 1;
    assert Lines([]) == [];
    assert Lines(s) == [s[..1]] + Lines([]);
  }

  lemma {:induction false} RootLine(c: Config)
    requires c.section.Copy? && [] !in c.explicit
    ensures ReadLine(c, [SLASH]) == Some(c.(explicit := c.explicit[[] := Copy]))
  {
    var line: Bytes := [SLASH];
    assert StripSlashes([]) == [];
    assert line[..0] == [];
    assert StripSlashes(line) == [];
    assert Split(line) == PathSplit([], []) by {
      SplitIsSplit(line);
      assert IsSplit(line, PathSplit([], [])) by {
        assert HasSlash(line) by { assert line[0] == SLASH; }
        assert line == [] + [SLASH] + [];
        assert IsSlashesThenName([], 0);
      }
      SplitIsUnique(line, Split(line), PathSplit([], []));
    }
    assert !PathContainsDotElements(line);
    assert !WhitespaceOnly(line) by { assert line[0] == 47; }
    assert Section(line).None?;
  }

  lemma {:induction false} ConfigParses()
    ensures ReadConfig(CONFIG) == Some(Config(Copy, map[[] := Copy], [], []))
    ensures !SparesRoot(map[[] := Copy])
  {
    hide ReadLine;
    ConfigLines();
    assert 0 !in CONFIG && !HasMark(CONFIG);
    CopyStartsSection(Nothing);
    var c := Nothing.(section := Copy);
    RootLine(c);
    assert [COPY, [SLASH]][1..] == [[SLASH]] && [[SLASH]][1..] == [];
    assert ReadLines(c, [[SLASH]]) == Some(Config(Copy, map[[] := Copy], [], []));
  }

  const TREE: Arena := map[[] := Rec(Copy, false, [])]

  lemma {:induction false} TreeIsParsed()
    ensures Parsed(TREE, map[[] := Copy])
  {
    assert Lists(TREE.Keys, [], []);
    assert Nearest(map[[] := Copy], []) == Copy;
    LineageHasSelf([]);
    assert Lineage([]) == {[]};
  }

  /** The root of the search. */
  const ROOT: SearchNode := SearchNode(Literal([]), Copy, [])

  lemma {:induction false} TreeIsRoot()
    requires Linked(TREE)
    ensures TreeOf(TREE, []) == ROOT
  {
    assert Split([]) == PathSplit([], []);
  }

  /** A file system with one file in its root directory. */
  function ListOf(d: Bytes): seq<Bytes> { if d == [SLASH] then [[98]] else [] }
  function StatOf(p: Bytes): Option<Entry> { Some(File(0, 0, 0, 0, [7])) }
  const WORLD: World := World(StatOf, StatOf, ListOf, 100)

  const FOUND: Metadata.Found := Found([SLASH, SLASH, 98], File(0, 0, 0, 0, [7]), Copy, None, [])

  /** The file is found under a path with two slashes. */
  lemma {:induction false} RootIsSearched(env: Env)
    requires env.ignore == []
    ensures SearchAll(env, WORLD, ROOT) == Some([FOUND])
  {
    assert !HasSlash([98]);
    SplitAppendRoot([98]);
    assert [SLASH] + [98] == [SLASH, 98];
    assert AppendPath([], [SLASH, 98]) == [SLASH, SLASH, 98];
    assert WORLD.list([SLASH]) == [[98]] && [[98]][1..] == [];
    assert Matching(env, [], [SLASH, 98]) == [];
    assert Seen(WORLD, [SLASH, SLASH, 98], None) == Some(FOUND.entry);
    assert Visit(env, WORLD, [], [SLASH, SLASH, 98], None, Copy) == Some(FOUND);
    assert WalkNames(env, WORLD, [SLASH], [], [], [], Copy) == Some([]);
    assert Matching(env, [], [SLASH, 98]) == [] && !Ignored(env, [SLASH, SLASH, 98]);
    assert Split(AppendPath([SLASH], [98])).tail == [SLASH, 98];
    assert WalkNames(env, WORLD, [SLASH], [], [[98]], [], Copy) == Some([FOUND] + []);
    assert [FOUND] + [] == [FOUND] && ROOT.policy == Copy && ROOT.subnodes == [];
    assert !IsDirect(Some(ROOT));
    assert SearchAll(env, WORLD, ROOT) == WalkNames(env, WORLD, [SLASH], [], WORLD.list([SLASH]), ROOT.subnodes, ROOT.policy);
  }

  // ----- what is written for it -----

  /** A node with an improper name makes the whole metadata unreadable. */
  lemma {:induction false} ImproperNameIsRejected(m: Image, ids: Ids)
    requires |m.times| <= SIZE_MAX && FitsHistory(m.config, ids, |m.times|) && 0 < |m.paths| <= SIZE_MAX
    requires !Wiped(m.paths[0]) && !ValidName(NameOf(m.paths[0])) && |NameOf(m.paths[0])| <= SIZE_MAX
    ensures Load(EncImage(m, ids)) == None
  {
    hide Dec64, ToLE, EncList, DecList, EncHistory, EncTimes, DecTimes, DecHistory, FitsHistory, NormHistory, ValidName, NameOf;
    var c := EncImage(m, ids);
    var list := EncList(m.paths, ids);
    var d := ToLE(m.total, 8) + list;
    var h := EncHistory(m.config, ids) + d;
    var t := EncTimes(m.times) + h;
    assert At(c, 0, c) by { assert c[0..|c|] == c; }
    AtConcat(c, 0, ToLE(|m.times|, 8), t);
    Round64(c, 0, |m.times|);
    AtConcat(c, 8, EncTimes(m.times), h);
    TimesRoundTrip(c, 8, m.times);
    var p := 8 + |EncTimes(m.times)|;
    AtConcat(c, p, EncHistory(m.config, ids), d);
    HistoryRoundTrip(c, p, m.config, ids, |m.times|);
    var q := p + |EncHistory(m.config, ids)|;
    AtConcat(c, q, ToLE(m.total, 8), list);
    Round64(c, q, m.total);
    ImproperList(c, q + 8, m.paths, ids, |m.times|);
  }

  lemma {:induction false} ImproperList(c: Bytes, pos: nat, ns: seq<Node>, ids: Ids, backups: nat)
    requires 0 < |ns| <= SIZE_MAX && At(c, pos, EncList(ns, ids))
    requires !Wiped(ns[0]) && !ValidName(NameOf(ns[0])) && |NameOf(ns[0])| <= SIZE_MAX
    ensures DecList(c, pos, [], backups) == None
  {
    hide ValidName, EncNode;
    LiveCountBound(ns);
    AtConcat(c, pos, ToLE(LiveCount(ns), 8), EncNodes(ns, ids));
    Round64(c, pos, LiveCount(ns));
    AtConcat(c, pos + 8, EncNode(ns[0], ids), EncNodes(ns[1..], ids));
    ImproperNode(c, pos + 8, ns[0], ids, backups);
  }

  lemma {:induction false} ImproperNode(c: Bytes, pos: nat, n: Node, ids: Ids, backups: nat)
    requires At(c, pos, EncNode(n, ids)) && !ValidName(NameOf(n)) && |NameOf(n)| <= SIZE_MAX
    ensures DecNode(c, pos, [], backups) == None
  {
    hide ValidName, EncHistory, EncList, NameOf;
    var name := NameOf(n);
    var rest := [PolicyCode(n.policy)] + (EncHistory(n.history, ids) + EncList(n.subs, ids));
    AtConcat(c, pos, ToLE(|name|, 8), name + rest);
    Round64(c, pos, |name|);
    AtConcat(c, pos + 8, name, rest);
    assert DecBytes(c, pos + 8, |name|) == Some(Got(name, pos + 8 + |name|));
  }

  lemma {:induction false} RootIsBackedUp(env: Env)
    ensures InitiateBackup(env, [], [FOUND], ROOT) == [NewNode(FOUND)]
  {
    var n := NewNode(FOUND);
    assert HandleNotFoundAll(env, [], None, Copy) == [];
    assert SettleSubnodes(env, n, FOUND) == [];
    assert CompleteNode(env, n, FOUND) == n;
    assert MergeOne(env, [], FOUND) == [n] + [];
    assert [FOUND][1..] == [];
    assert MergeAll(env, [n], []) == [n];
    assert MergeAll(env, [], [FOUND]) == [n];
  }

  /** The config parses, the search finds the file, the backup keeps it, and the metadata file that is
      written for it cannot be loaded. */
  lemma {:induction false} RootBackupIsLost(env: Env, time: I64)
    requires env.ignore == []
    ensures ReadConfig(CONFIG).Some? && Parsed(TREE, ReadConfig(CONFIG).value.explicit) && TreeOf(TREE, []) == ROOT
    ensures SearchAll(env, WORLD, ROOT) == Some([FOUND])
    ensures var ns := InitiateBackup(env, [], [FOUND], ROOT);
      |ns| == 1 && !Wiped(ns[0]) && Load(EncImage(Image([time], [], 1, ns), Ids(0, []))) == None
  {
    ConfigParses();
    TreeIsParsed();
    TreeIsRoot();
    RootIsSearched(env);
    RootIsBackedUp(env);
    hide ReadConfig, Parsed, TreeOf, SearchAll, InitiateBackup, Load, EncImage;
    var n := NewNode(FOUND);
    assert NameOf(n) == [SLASH, 98] by {
      SplitAppendTwice();
    }
    SlashIsInvalid([98]);
    assert [SLASH] + [98] == [SLASH, 98];
    ImproperNameIsRejected(Image([time], [], 1, [n]), Ids(0, []));
  }

  lemma {:induction false} SplitAppendTwice()
    ensures Split([SLASH, SLASH, 98]).tail == [SLASH, 98]
  {
    assert !HasSlash([98]);
    SplitAppendRoot([98]);
    assert AppendPath([SLASH], [98]) == [SLASH, SLASH, 98];
    assert [SLASH] + [98] == [SLASH, 98];
  }
}
