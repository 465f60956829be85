/** metadataWrite() and metadataLoad() in the form of src/metadata.c: a writer that appends, a
    reader with a moving position, loops over lists, counters and ids that are updated in place. */
module MetadataFile {
  import opened Data
  import opened Str
  import opened Metadata
  import opened Backup
  import opened Codec
  import opened Renumber

  /** The first loop of writePathList() */
  method CountLive(ns: seq<Node>) returns (count: nat)
    ensures count == LiveCount(ns)
  {
    count := 0;
    var i := 0;
    assert ns[0..] == ns;
    while i < |ns|
      invariant 0 <= i <= |ns|
      invariant count + LiveCount(ns[i..]) == LiveCount(ns)
    {
      assert ns[i..][0] == ns[i] && ns[i..][1..] == ns[i + 1..];
      if !IsKind(ns[i].hint, NotPartOfRepository) { count := count + 1; }
      i := i + 1;
    }
  }

  class Writer {
    var out: Bytes

    constructor ()
      ensures out == []
    {
      out := [];
    }

    method Write(data: Bytes)
      modifies this
      ensures out == old(out) + data
    {
      out := out + data;
    }

    /** writePathHistoryList() */
    method WriteHistory(h: seq<Point>, ids: Ids)
      modifies this
      ensures out == old(out) + EncHistory(h, ids)
    {
      hide EncState, ToLE, IdOf;
      Write(ToLE(|h|, 8));
      ghost var start := out;
      var i := 0;
      assert h[0..] == h;
      while i < |h|
        invariant 0 <= i <= |h|
        invariant out + EncPoints(h[i..], ids) == start + EncPoints(h, ids)
      {
        assert h[i..][0] == h[i] && h[i..][1..] == h[i + 1..];
        ghost var before := out;
        Write(ToLE(IdOf(ids, h[i].backup), 8));
        WriteState(h[i].state);
        assert out == before + EncPoint(h[i], ids);
        i := i + 1;
      }
      assert out == start + EncPoints(h, ids);
    }

    method WriteState(s: PathState)
      modifies this
      ensures out == old(out) + EncState(s)
    {
      hide ToLE, EncBody;
      ghost var start := out;
      Write([TypeCode(s)]);
      if s.NonExisting? { return; }
      Write(ToLE(s.uid, 4));
      Write(ToLE(s.gid, 4));
      WriteBody(s);
      assert out == start + ([TypeCode(s)] + (ToLE(s.uid, 4) + (ToLE(s.gid, 4) + EncBody(s))));
    }

    method WriteBody(s: PathState)
      requires !s.NonExisting?
      modifies this
      ensures out == old(out) + EncBody(s)
    {
      hide ToLE, TimeToU64, EncFile;
      ghost var start := out;
      if s.RegularFile? {
        WriteFileInfo(s.info);
      } else if s.Symlink? {
        Write(ToLE(|s.target|, 8));
        Write(s.target);
      } else {
        Write(ToLE(s.mode, 4));
        Write(ToLE(TimeToU64(s.mtime), 8));
      }
      assert out == start + EncBody(s);
    }

    method WriteFileInfo(i: FileInfo)
      modifies this
      ensures out == old(out) + EncFile(i)
    {
      hide ToLE, TimeToU64;
      Write(ToLE(i.mode, 4));
      Write(ToLE(TimeToU64(i.mtime), 8));
      Write(ToLE(i.size, 8));
      ghost var start := out;
      if i.size > FILE_HASH_SIZE {
        Write(i.hash);
        Write([i.slot]);
      } else if i.size > 0 {
        Write(i.hash[..i.size]);
      }
      assert out == start + EncIdentity(i);
    }

    /** writePathList() */
    method WriteList(ns: seq<Node>, ids: Ids)
      modifies this
      ensures out == old(out) + EncList(ns, ids)
      decreases ns, 1
    {
      hide ToLE, EncHistory, EncNode, LiveCount;
      var count := CountLive(ns);
      Write(ToLE(count, 8));
      ghost var start := out;
      var i := 0;
      assert ns[0..] == ns;
      while i < |ns|
        invariant 0 <= i <= |ns|
        invariant out + EncNodes(ns[i..], ids) == start + EncNodes(ns, ids)
      {
        ghost var rest := EncNodes(ns[i + 1..], ids);
        assert ns[i..][0] == ns[i] && ns[i..][1..] == ns[i + 1..];
        if !IsKind(ns[i].hint, NotPartOfRepository) {
          ghost var before := out;
          WriteNode(ns[i], ids);
          assert before + (EncNode(ns[i], ids) + rest) == out + rest;
        }
        i := i + 1;
      }
      assert EncNodes(ns[i..], ids) == [];
      assert out == start + EncNodes(ns, ids);
    }

    method WriteNode(n: Node, ids: Ids)
      modifies this
      ensures out == old(out) + EncNode(n, ids)
      decreases n
    {
      hide ToLE, EncHistory, EncList;
      var head, name := SplitPath(n.path);
      Write(ToLE(|name|, 8));
      Write(name);
      Write([PolicyCode(n.policy)]);
      WriteHistory(n.history, ids);
      WriteList(n.subs, ids);
    }
  }

  /** The Metadata struct. The id of a past backup is its index until the metadata is written. */
  class Store {
    var currentId: nat
    var currentTime: I64
    var currentRefs: int
    var ids: seq<nat>
    var times: seq<I64>
    var refs: seq<int>
    var config: seq<Point>
    var total: U64
    var paths: seq<Node>

    ghost predicate Valid() reads this {
      |times| == |refs| == |ids| && currentId == 0 && forall i :: 0 <= i < |ids| ==> ids[i] == i
    }

    function Counts(): Ledger reads this { Ledger(currentRefs, currentTime, refs, times) }

    constructor Create(currentTime: I64, currentRefs: int, times: seq<I64>, refs: seq<int>, config: seq<Point>, total: U64, paths: seq<Node>)
      requires |times| == |refs|
      ensures Valid()
      ensures Counts() == Ledger(currentRefs, currentTime, refs, times)
      ensures this.config == config && this.total == total && this.paths == paths
    {
      this.currentId, this.currentTime, this.currentRefs := 0, currentTime, currentRefs;
      this.ids, this.times, this.refs := seq(|times|, i => i), times, refs;
      this.config, this.total, this.paths := config, total, paths;
    }

    /** The first loop of metadataWrite(): ids of referenced backups are counted up in place. */
    method UpdateIds() returns (counter: nat)
      requires Valid()
      modifies this`ids
      ensures Ids(currentId, ids) == NewIds(Counts()) && counter == IdCount(Counts())
    {
      ghost var l := Counts();
      ghost var first := FirstPastId(l);
      counter := if currentRefs > 0 then 1 else 0;
      var i := 0;
      while i < |refs|
        invariant 0 <= i <= |refs| && |ids| == |refs|
        invariant counter == first + CountReferenced(refs, i)
        invariant forall j :: 0 <= j < i ==> ids[j] == NewIds(l).past[j]
        invariant forall j :: i <= j < |ids| ==> ids[j] == j
      {
        if refs[i] > 0 {
          ids := ids[i := counter];
          counter := counter + 1;
        }
        i := i + 1;
      }
      assert ids == NewIds(l).past;
    }

    /** The completion times of all referenced backups, the current one first. */
    method WriteTimes(w: Writer)
      requires |times| == |refs|
      modifies w
      ensures w.out == old(w.out) + EncTimes(NewTimes(Counts()))
    {
      hide ToLE, TimeToU64, Kept;
      ghost var start := w.out;
      ghost var written := (if currentRefs > 0 then [currentTime] else []);
      if currentRefs > 0 { w.Write(ToLE(TimeToU64(currentTime), 8)); }
      assert w.out == start + EncTimes(written) by { assert written[..0] == []; }
      var i := 0;
      KeptNothing(refs, times);
      while i < |refs|
        invariant 0 <= i <= |refs|
        invariant written == (if currentRefs > 0 then [currentTime] else []) + Kept<I64>(refs, times, i)
        invariant w.out == start + EncTimes(written)
      {
        KeptMore(refs, times, i);
        if refs[i] > 0 {
          w.Write(ToLE(TimeToU64(times[i]), 8));
          OneMoreTime(start, written, times[i]);
          written := written + [times[i]];
        }
        i := i + 1;
      }
    }

    /** metadataWrite(), up to closing the writer. */
    method Write(w: Writer)
      requires Valid()
      modifies this`ids, w
      ensures Ids(currentId, ids) == NewIds(Counts())
      ensures w.out == old(w.out) + EncImage(Image(NewTimes(Counts()), config, total, paths), NewIds(Counts()))
    {
      hide ToLE, EncHistory, EncList, EncTimes, NewIds;
      ghost var start := w.out;
      ghost var ts := EncTimes(NewTimes(Counts()));
      WriteCountAndTimes(w);
      ghost var given := Ids(currentId, ids);
      w.WriteHistory(config, Ids(currentId, ids));
      w.Write(ToLE(total, 8));
      w.WriteList(paths, Ids(currentId, ids));
      ghost var k, cf, tot, ps := ToLE(IdCount(Counts()), 8), EncHistory(config, given), ToLE(total, 8), EncList(paths, given);
      assert start + k + ts + cf + tot + ps == start + (k + (ts + (cf + (tot + ps))));
    }

    method WriteCountAndTimes(w: Writer)
      requires Valid()
      modifies this`ids, w
      ensures Ids(currentId, ids) == NewIds(Counts())
      ensures w.out == old(w.out) + ToLE(IdCount(Counts()), 8) + EncTimes(NewTimes(Counts()))
    {
      var counter := UpdateIds();
      w.Write(ToLE(counter, 8));
      WriteTimes(w);
    }
  }

  lemma {:induction false} KeptNothing(refs: seq<int>, times: seq<I64>)
    requires |refs| == |times|
    ensures Kept<I64>(refs, times, 0) == []
  {
  }

  lemma {:induction false} KeptMore(refs: seq<int>, times: seq<I64>, i: nat)
    requires |refs| == |times| && i < |refs|
    ensures Kept<I64>(refs, times, i + 1) == Kept<I64>(refs, times, i) + if refs[i] > 0 then [times[i]] else []
  {
  }

  lemma {:induction false} OneMoreTime(start: Bytes, written: seq<I64>, t: I64)
    ensures start + EncTimes(written + [t]) == start + EncTimes(written) + ToLE(TimeToU64(t), 8)
  {
    hide ToLE, TimeToU64;
    TimesAppend(written, [t]);
    assert EncTimes([t]) == ToLE(TimeToU64(t), 8) by { assert [t][1..] == []; }
  }

  lemma {:induction false} TimesAppend(a: seq<I64>, b: seq<I64>)
    ensures EncTimes(a + b) == EncTimes(a) + EncTimes(b)
  {
    if a == [] {
      assert a + b == b;
    } else {
      assert (a + b)[1..] == a[1..] + b;
      TimesAppend(a[1..], b);
    }
  }
}
