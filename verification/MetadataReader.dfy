/** metadataLoad() as src/metadata.c runs it: a reader that moves through the bytes, checks every
    length before it reads, counts references and prepends nodes. None is die(). */
module MetadataReader {
  import opened Data
  import opened Str
  import opened Metadata
  import opened Backup
  import opened RefCounts
  import opened Codec

  /** A read either dies with its specification, or returns its value and moves as far. */
  predicate Agrees<T(==)>(d: Option<Got<T>>, r: Option<T>, position: nat) {
    match d
    case None => r.None?
    case Some(g) => r == Some(g.value) && position == g.pos
  }

  function Behind(d: Option<Got<seq<Node>>>, tree: seq<Node>): Option<Got<seq<Node>>> {
    if d.None? then None else Some(Got(d.value.value + tree, d.value.pos))
  }

  class Reader {
    const content: Bytes
    var position: nat
    /** The ref_count of every backup in the backup history. */
    var refs: seq<nat>

    constructor (content: Bytes)
      ensures this.content == content && position == 0 && refs == []
    {
      this.content, position, refs := content, 0, [];
    }

    method Read(n: nat) returns (r: Option<Bytes>)
      requires position <= |content|
      modifies this`position
      ensures Agrees(DecBytes(content, old(position), n), r, position)
      ensures position <= |content|
    {
      if n > |content| - position { return None; }
      r := Some(content[position..position + n]);
      position := position + n;
    }

    method Read8() returns (r: Option<Byte>)
      requires position <= |content|
      modifies this`position
      ensures Agrees(Dec8(content, old(position)), r, position)
      ensures position <= |content|
    {
      var b :- Read(1);
      FromLEBound(b);
      r := Some(FromLE(b));
    }

    method Read32() returns (r: Option<U32>)
      requires position <= |content|
      modifies this`position
      ensures Agrees(Dec32(content, old(position)), r, position)
      ensures position <= |content|
    {
      var b :- Read(4);
      FromLEBound(b);
      r := Some(FromLE(b));
    }

    method Read64() returns (r: Option<U64>)
      requires position <= |content|
      modifies this`position
      ensures Agrees(Dec64(content, old(position)), r, position)
      ensures position <= |content|
    {
      var b :- Read(8);
      FromLEBound(b);
      r := Some(FromLE(b));
    }

    method ReadFileInfo() returns (r: Option<FileInfo>)
      requires position <= |content|
      modifies this`position
      ensures Agrees(DecFile(content, old(position)), r, position)
      ensures position <= |content|
    {
      hide Dec8, Dec32, Dec64, FromLE, U64ToTime;
      var mode :- Read32();
      var mtime :- Read64();
      var size :- Read64();
      if size > FILE_HASH_SIZE {
        var hash :- Read(FILE_HASH_SIZE);
        var slot :- Read8();
        r := Some(FileInfo(mode, U64ToTime(mtime), size, hash, slot));
      } else if size > 0 {
        var hash :- Read(size);
        r := Some(FileInfo(mode, U64ToTime(mtime), size, hash + Zeros(20 - size), 0));
      } else {
        r := Some(FileInfo(mode, U64ToTime(mtime), size, Zeros(20), 0));
      }
    }

    method ReadBody(code: Byte, uid: U32, gid: U32) returns (r: Option<PathState>)
      requires position <= |content|
      modifies this`position
      ensures Agrees(DecBody(content, old(position), code, uid, gid), r, position)
      ensures position <= |content|
    {
      hide Dec8, Dec32, Dec64, FromLE, U64ToTime, DecFile, CString;
      if code == 1 {
        var info :- ReadFileInfo();
        r := Some(RegularFile(uid, gid, info));
      } else if code == 2 {
        var length :- Read64();
        var target :- Read(length);
        r := Some(Symlink(uid, gid, CString(target)));
      } else if code == 3 {
        var mode :- Read32();
        var mtime :- Read64();
        r := Some(Directory(uid, gid, mode, U64ToTime(mtime)));
      } else {
        r := None;
      }
    }

    /** readPathHistory(): one point, counted for its backup. */
    method ReadPoint() returns (r: Option<Point>)
      requires position <= |content|
      modifies this`position, this`refs
      ensures Agrees(DecPoint(content, old(position), |refs|), r, position)
      ensures position <= |content| && |refs| == old(|refs|)
      ensures r.Some? ==> forall i :: 0 <= i < |refs| ==> refs[i] == old(refs[i]) + if r.value.backup == Past(i) then 1 else 0
    {
      hide Dec8, Dec32, Dec64, FromLE, DecBody;
      var id :- Read64();
      if id >= |refs| { return None; }
      refs := refs[id := refs[id] + 1];
      var code :- Read8();
      if code == 0 { return Some(Point(Past(id), NonExisting)); }
      var uid :- Read32();
      var gid :- Read32();
      var s :- ReadBody(code, uid, gid);
      r := Some(Point(Past(id), s));
    }

    /** readFullPathHistory() */
    method ReadHistory() returns (r: Option<seq<Point>>)
      requires position <= |content|
      modifies this`position, this`refs
      ensures Agrees(DecHistory(content, old(position), |refs|), r, position)
      ensures position <= |content| && |refs| == old(|refs|)
      ensures r.Some? ==> forall i :: 0 <= i < |refs| ==> refs[i] == old(refs[i]) + CountRef(r.value, Past(i))
    {
      hide Dec64, DecPoint;
      var length :- Read64();
      ghost var start, k := position, |refs|;
      var h := [];
      var counter := 0;
      ghost var all := DecPoints(content, start, length, k);
      if all.Some? { assert [] + all.value.value == all.value.value; }
      while counter < length
        invariant 0 <= counter <= length && position <= |content| && |refs| == k
        invariant Before(h, DecPoints(content, position, length - counter, k)) == DecPoints(content, start, length, k)
        invariant forall i :: 0 <= i < |refs| ==> refs[i] == old(refs[i]) + CountRef(h, Past(i))
      {
        ghost var left := DecPoints(content, position, length - counter, k);
        var p := ReadPoint();
        if p.None? { return None; }
        forall i | 0 <= i < k ensures CountRef(h + [p.value], Past(i)) == CountRef(h, Past(i)) + if p.value.backup == Past(i) then 1 else 0 {
          CountRefConcat(h, [p.value], Past(i));
          assert [p.value][1..] == [];
        }
        BeforeStep(h, p.value, DecPoints(content, position, length - counter - 1, k));
        h := h + [p.value];
        counter := counter + 1;
      }
      assert h + [] == h;
      r := Some(h);
    }

    /** One iteration of the loop of readPathSubnodes(). */
    method ReadNode(parent: Bytes) returns (r: Option<Node>)
      requires position <= |content|
      modifies this`position, this`refs
      ensures Agrees(DecNode(content, old(position), parent, |refs|), r, position)
      ensures position <= |content| && |refs| == old(|refs|)
      ensures r.Some? ==> forall i :: 0 <= i < |refs| ==> refs[i] == old(refs[i]) + Tally(r.value, Refs(Past(i)))
      ensures r.Some? ==> r.value.hint == NoHint
      decreases |content| - position, 0
    {
      hide Dec8, Dec64, DecHistory, FromLE, HasSlash, IsDotElement;
      var length :- Read64();
      var name :- Read(length);
      if !ValidName(name) { return None; }
      var path := AppendPath(parent, name);
      var policy :- Read8();
      var history :- ReadHistory();
      var subs :- ReadSubnodes(path);
      r := Some(Node(path, NoHint, PolicyOf(policy), history, subs));
    }

    /** readPathSubnodes() */
    method ReadSubnodes(parent: Bytes) returns (r: Option<seq<Node>>)
      requires position <= |content|
      modifies this`position, this`refs
      ensures Agrees(DecList(content, old(position), parent, |refs|), r, position)
      ensures position <= |content| && |refs| == old(|refs|)
      ensures r.Some? ==> forall i :: 0 <= i < |refs| ==> refs[i] == old(refs[i]) + TallyAll(r.value, Refs(Past(i)))
      decreases |content| - position, 1
    {
      hide Dec64, DecNode;
      var count :- Read64();
      ghost var start, k := position, |refs|;
      var tree := [];
      var counter := 0;
      ghost var all := DecNodes(content, start, count, parent, k);
      if all.Some? { assert all.value.value + [] == all.value.value; }
      while counter < count
        invariant 0 <= counter <= count && start <= position <= |content| && |refs| == k
        invariant Behind(DecNodes(content, position, count - counter, parent, k), tree) == DecNodes(content, start, count, parent, k)
        invariant forall i :: 0 <= i < |refs| ==> refs[i] == old(refs[i]) + TallyAll(tree, Refs(Past(i)))
      {
        var n := ReadNode(parent);
        if n.None? { return None; }
        BehindStep(DecNodes(content, position, count - counter - 1, parent, k), n.value, tree);
        assert ([n.value] + tree)[1..] == tree;
        tree := [n.value] + tree;
        counter := counter + 1;
      }
      assert [] + tree == tree;
      r := Some(tree);
    }

    /** metadataLoad(): the file is loaded exactly when it is a complete image, and every backup
        ends up with the number of points that refer to it. */
    method LoadImage() returns (r: Option<Image>)
      requires position == 0 && refs == []
      modifies this`position, this`refs
      ensures r == Load(content)
      ensures r.Some? ==> |refs| == |r.value.times| && forall i :: 0 <= i < |refs| ==>
        refs[i] == CountRef(r.value.config, Past(i)) + TallyAll(r.value.paths, Refs(Past(i)))
    {
      hide Dec64, DecHistory, DecList, DecTimes;
      var k :- Read64();
      var times := ReadTimes(k);
      if times.None? { return None; }
      refs := seq(k, _ => 0);
      var config :- ReadHistory();
      var total :- Read64();
      var paths :- ReadSubnodes([]);
      if position != |content| { return None; }
      r := Some(Image(times.value, config, total, paths));
    }

    method ReadTimes(k: nat) returns (r: Option<seq<I64>>)
      requires position <= |content|
      modifies this`position
      ensures Agrees(DecTimes(content, old(position), k), r, position)
      ensures position <= |content|
    {
      hide Dec64, U64ToTime;
      ghost var start := position;
      var ts := [];
      var id := 0;
      ghost var all := DecTimes(content, start, k);
      if all.Some? { assert [] + all.value.value == all.value.value; }
      while id < k
        invariant 0 <= id <= k && position <= |content|
        invariant BeforeTimes(ts, DecTimes(content, position, k - id)) == DecTimes(content, start, k)
      {
        ghost var here := position;
        var t := Read64();
        if t.None? { return None; }
        BeforeTimesStep(ts, U64ToTime(t.value), DecTimes(content, position, k - id - 1));
        ts := ts + [U64ToTime(t.value)];
        id := id + 1;
      }
      assert ts + [] == ts;
      r := Some(ts);
    }
  }

  lemma {:induction false} FromLEBound(b: Bytes)
    ensures |b| == 1 ==> FromLE(b) < 0x100
    ensures |b| == 4 ==> FromLE(b) < 0x1_0000_0000
    ensures |b| == 8 ==> FromLE(b) < 0x1_0000_0000_0000_0000
  {
    Widths();
  }

  function Before(h: seq<Point>, d: Option<Got<seq<Point>>>): Option<Got<seq<Point>>> {
    if d.None? then None else Some(Got(h + d.value.value, d.value.pos))
  }

  function BeforeTimes(ts: seq<I64>, d: Option<Got<seq<I64>>>): Option<Got<seq<I64>>> {
    if d.None? then None else Some(Got(ts + d.value.value, d.value.pos))
  }

  lemma {:induction false} BeforeStep(h: seq<Point>, p: Point, rest: Option<Got<seq<Point>>>)
    ensures Before(h, if rest.None? then None else Some(Got([p] + rest.value.value, rest.value.pos))) == Before(h + [p], rest)
  {
    if rest.Some? { assert h + ([p] + rest.value.value) == h + [p] + rest.value.value; }
  }

  lemma {:induction false} BeforeTimesStep(ts: seq<I64>, t: I64, rest: Option<Got<seq<I64>>>)
    ensures BeforeTimes(ts, if rest.None? then None else Some(Got([t] + rest.value.value, rest.value.pos))) == BeforeTimes(ts + [t], rest)
  {
    if rest.Some? { assert ts + ([t] + rest.value.value) == ts + [t] + rest.value.value; }
  }

  lemma {:induction false} BehindStep(rest: Option<Got<seq<Node>>>, n: Node, tree: seq<Node>)
    ensures Behind(if rest.None? then None else Some(Got(rest.value.value + [n], rest.value.pos)), tree) == Behind(rest, [n] + tree)
  {
    if rest.Some? { assert rest.value.value + [n] + tree == rest.value.value + ([n] + tree); }
  }
}
