/** Loading what was written: round trip, and rejection of every other length. */
module CodecRoundTrip {
  import opened Data
  import opened Str
  import opened Metadata
  import opened Backup
  import opened Codec

  /** The bytes bs stand in c at position pos. */
  predicate At(c: Bytes, pos: nat, bs: Bytes) {
    pos + |bs| <= |c| && c[pos..pos + |bs|] == bs
  }

  lemma {:induction false} AtConcat(c: Bytes, pos: nat, a: Bytes, b: Bytes)
    requires At(c, pos, a + b)
    ensures At(c, pos, a) && At(c, pos + |a|, b)
  {
    var ab := a + b;
    assert c[pos..pos + |ab|][..|a|] == c[pos..pos + |a|];
    assert c[pos..pos + |ab|][|a|..] == c[pos + |a|..pos + |a| + |b|];
    assert ab[..|a|] == a && ab[|a|..] == b;
  }

  // ----- round trip of the parts -----

  lemma {:induction false} NumberRoundTrip(c: Bytes, pos: nat, v: nat, n: nat)
    requires v < Pow256(n) && At(c, pos, ToLE(v, n))
    ensures DecNumber(c, pos, n) == Some(Got(v, pos + n))
  {
    FromLEToLE(v, n);
  }

  lemma {:induction false} Round8(c: Bytes, pos: nat, v: Byte)
    requires At(c, pos, [v])
    ensures Dec8(c, pos) == Some(Got(v, pos + 1))
  {
    Widths();
    assert c[pos..pos + 1] == [v];
    assert FromLE([v]) == v by { assert [v][1..] == []; }
  }

  lemma {:induction false} Round32(c: Bytes, pos: nat, v: U32)
    requires At(c, pos, ToLE(v, 4))
    ensures Dec32(c, pos) == Some(Got(v, pos + 4))
  {
    Widths();
    NumberRoundTrip(c, pos, v, 4);
  }

  lemma {:induction false} Round64(c: Bytes, pos: nat, v: U64)
    requires At(c, pos, ToLE(v, 8))
    ensures Dec64(c, pos) == Some(Got(v, pos + 8))
  {
    Widths();
    NumberRoundTrip(c, pos, v, 8);
  }

  lemma {:induction false} TimeRoundTrip(t: I64)
    ensures U64ToTime(TimeToU64(t)) == t
  {
  }

  lemma {:induction false} FileRoundTrip(c: Bytes, pos: nat, i: FileInfo)
    requires At(c, pos, EncFile(i))
    ensures DecFile(c, pos) == Some(Got(NormInfo(i), pos + |EncFile(i)|))
  {
    hide Dec8, Dec32, Dec64, FromLE, ToLE;
    var m, t, s, id := ToLE(i.mode, 4), ToLE(TimeToU64(i.mtime), 8), ToLE(i.size, 8), EncIdentity(i);
    AtConcat(c, pos, m, t + (s + id));
    AtConcat(c, pos + 4, t, s + id);
    AtConcat(c, pos + 12, s, id);
    Round32(c, pos, i.mode);
    Round64(c, pos + 4, TimeToU64(i.mtime));
    Round64(c, pos + 12, i.size);
    TimeRoundTrip(i.mtime);
    if i.size > FILE_HASH_SIZE {
      AtConcat(c, pos + 20, i.hash, [i.slot]);
      Round8(c, pos + 40, i.slot);
      assert DecBytes(c, pos + 20, 20) == Some(Got(i.hash, pos + 40));
    } else if i.size > 0 {
      assert DecBytes(c, pos + 20, i.size) == Some(Got(i.hash[..i.size], pos + 20 + i.size));
    } else {
      assert NormInfo(i).hash == Zeros(20);
    }
  }

  lemma {:induction false} BodyRoundTrip(c: Bytes, pos: nat, s: PathState)
    requires FitsState(s) && !s.NonExisting? && At(c, pos, EncBody(s))
    ensures DecBody(c, pos, TypeCode(s), s.uid, s.gid) == Some(Got(NormState(s), pos + |EncBody(s)|))
  {
    hide Dec8, Dec32, Dec64, FromLE, ToLE, DecFile, EncFile, NormInfo, CString, TimeToU64, U64ToTime;
    match s
    case RegularFile(_, _, i) =>
      FileRoundTrip(c, pos, i);
    case Symlink(_, _, t) =>
      AtConcat(c, pos, ToLE(|t|, 8), t);
      Round64(c, pos, |t|);
    case Directory(_, _, m, t) =>
      AtConcat(c, pos, ToLE(m, 4), ToLE(TimeToU64(t), 8));
      Round32(c, pos, m);
      Round64(c, pos + 4, TimeToU64(t));
      TimeRoundTrip(t);
  }

  lemma {:induction false} StateRoundTrip(c: Bytes, pos: nat, s: PathState)
    requires FitsState(s) && At(c, pos, EncState(s))
    ensures DecState(c, pos) == Some(Got(NormState(s), pos + |EncState(s)|))
  {
    hide Dec8, Dec32, Dec64, FromLE, ToLE, DecBody, EncBody, NormInfo;
    if s.NonExisting? {
      Round8(c, pos, 0);
    } else {
      OwnerRoundTrip(c, pos, TypeCode(s), s.uid, s.gid, EncBody(s));
      BodyRoundTrip(c, pos + 9, s);
    }
  }

  lemma {:induction false} OwnerRoundTrip(c: Bytes, pos: nat, k: Byte, u: U32, g: U32, rest: Bytes)
    requires At(c, pos, [k] + (ToLE(u, 4) + (ToLE(g, 4) + rest)))
    ensures Dec8(c, pos) == Some(Got(k, pos + 1))
    ensures Dec32(c, pos + 1) == Some(Got(u, pos + 5))
    ensures Dec32(c, pos + 5) == Some(Got(g, pos + 9))
    ensures At(c, pos + 9, rest)
  {
    AtConcat(c, pos, [k], ToLE(u, 4) + (ToLE(g, 4) + rest));
    AtConcat(c, pos + 1, ToLE(u, 4), ToLE(g, 4) + rest);
    AtConcat(c, pos + 5, ToLE(g, 4), rest);
    Round8(c, pos, k);
    Round32(c, pos + 1, u);
    Round32(c, pos + 5, g);
  }

  lemma {:induction false} PointRoundTrip(c: Bytes, pos: nat, p: Point, ids: Ids, backups: nat)
    requires FitsState(p.state) && IdOf(ids, p.backup) < backups <= SIZE_MAX
    requires At(c, pos, EncPoint(p, ids))
    ensures DecPoint(c, pos, backups) == Some(Got(NormPoint(p, ids), pos + |EncPoint(p, ids)|))
  {
    hide Dec8, Dec32, Dec64, FromLE, ToLE, DecState, EncState, NormState, FitsState;
    var id := IdOf(ids, p.backup);
    AtConcat(c, pos, ToLE(id, 8), EncState(p.state));
    Round64(c, pos, id);
    StateRoundTrip(c, pos + 8, p.state);
  }

  lemma {:induction false} PointsRoundTrip(c: Bytes, pos: nat, h: seq<Point>, ids: Ids, backups: nat)
    requires FitsHistory(h, ids, backups) && backups <= SIZE_MAX
    requires At(c, pos, EncPoints(h, ids))
    ensures DecPoints(c, pos, |h|, backups) == Some(Got(NormHistory(h, ids), pos + |EncPoints(h, ids)|))
    decreases |h|
  {
    hide Dec8, Dec32, Dec64, FromLE, ToLE, DecPoint, EncPoint, NormPoint, FitsState, IdOf;
    if h != [] {
      AtConcat(c, pos, EncPoint(h[0], ids), EncPoints(h[1..], ids));
      PointRoundTrip(c, pos, h[0], ids, backups);
      PointsRoundTrip(c, pos + |EncPoint(h[0], ids)|, h[1..], ids, backups);
      assert NormHistory(h, ids) == [NormPoint(h[0], ids)] + NormHistory(h[1..], ids);
    }
  }

  lemma {:induction false} HistoryRoundTrip(c: Bytes, pos: nat, h: seq<Point>, ids: Ids, backups: nat)
    requires FitsHistory(h, ids, backups) && backups <= SIZE_MAX
    requires At(c, pos, EncHistory(h, ids))
    ensures DecHistory(c, pos, backups) == Some(Got(NormHistory(h, ids), pos + |EncHistory(h, ids)|))
  {
    hide Dec8, Dec32, Dec64, FromLE, ToLE, DecPoints, EncPoints, NormPoint, FitsState, IdOf;
    AtConcat(c, pos, ToLE(|h|, 8), EncPoints(h, ids));
    Round64(c, pos, |h|);
    PointsRoundTrip(c, pos + 8, h, ids, backups);
  }

  lemma {:induction false} LiveCountBound(ns: seq<Node>)
    ensures LiveCount(ns) <= |ns|
  {
    if ns != [] { LiveCountBound(ns[1..]); }
  }

  lemma {:induction false} NodeRoundTrip(c: Bytes, pos: nat, n: Node, parent: Bytes, ids: Ids, backups: nat)
    requires FitsNode(n, parent, ids, backups) && backups <= SIZE_MAX
    requires At(c, pos, EncNode(n, ids))
    ensures DecNode(c, pos, parent, backups) == Some(Got(NormNode(n, ids), pos + |EncNode(n, ids)|))
    decreases n, 1
  {
    hide Dec8, Dec32, Dec64, FromLE, ToLE, DecHistory, EncHistory, DecList, EncList, NormHistory, FitsHistory, Split, HasSlash, IsDotElement;
    var name := NameOf(n);
    var l, p, h, subs := ToLE(|name|, 8), [PolicyCode(n.policy)], EncHistory(n.history, ids), EncList(n.subs, ids);
    AtConcat(c, pos, l, name + (p + (h + subs)));
    AtConcat(c, pos + 8, name, p + (h + subs));
    AtConcat(c, pos + 8 + |name|, p, h + subs);
    AtConcat(c, pos + 9 + |name|, h, subs);
    Round64(c, pos, |name|);
    Round8(c, pos + 8 + |name|, PolicyCode(n.policy));
    HistoryRoundTrip(c, pos + 9 + |name|, n.history, ids, backups);
    ListRoundTrip(c, pos + 9 + |name| + |h|, n.subs, n.path, ids, backups);
    assert PolicyOf(PolicyCode(n.policy)) == n.policy;
  }

  lemma {:induction false} ListRoundTrip(c: Bytes, pos: nat, ns: seq<Node>, parent: Bytes, ids: Ids, backups: nat)
    requires FitsNodes(ns, parent, ids, backups) && backups <= SIZE_MAX
    requires At(c, pos, EncList(ns, ids))
    ensures DecList(c, pos, parent, backups) == Some(Got(NormNodes(ns, ids), pos + |EncList(ns, ids)|))
    decreases ns, 2
  {
    hide Dec8, Dec32, Dec64, FromLE, ToLE, FitsNode, FitsHistory, DecNode, EncNode, NormNode;
    AtConcat(c, pos, ToLE(LiveCount(ns), 8), EncNodes(ns, ids));
    LiveCountBound(ns);
    Round64(c, pos, LiveCount(ns));
    NodesRoundTrip(c, pos + 8, ns, parent, ids, backups);
  }

  lemma {:induction false} NodesRoundTrip(c: Bytes, pos: nat, ns: seq<Node>, parent: Bytes, ids: Ids, backups: nat)
    requires FitsNodes(ns, parent, ids, backups) && backups <= SIZE_MAX
    requires At(c, pos, EncNodes(ns, ids))
    ensures DecNodes(c, pos, LiveCount(ns), parent, backups) == Some(Got(NormNodes(ns, ids), pos + |EncNodes(ns, ids)|))
    decreases ns, 1
  {
    hide Dec8, Dec32, Dec64, FromLE, ToLE, FitsNode, FitsHistory, DecNode, EncNode, NormNode;
    if ns != [] {
      var first := if Wiped(ns[0]) then [] else EncNode(ns[0], ids);
      AtConcat(c, pos, first, EncNodes(ns[1..], ids));
      NodesRoundTrip(c, pos + |first|, ns[1..], parent, ids, backups);
      if Wiped(ns[0]) {
        assert NormNodes(ns, ids) == NormNodes(ns[1..], ids);
      } else {
        NodeRoundTrip(c, pos, ns[0], parent, ids, backups);
        assert LiveCount(ns) - 1 == LiveCount(ns[1..]);
      }
    }
  }

  lemma {:induction false} TimesRoundTrip(c: Bytes, pos: nat, ts: seq<I64>)
    requires At(c, pos, EncTimes(ts))
    ensures DecTimes(c, pos, |ts|) == Some(Got(ts, pos + |EncTimes(ts)|))
    decreases |ts|
  {
    hide Dec8, Dec32, Dec64, FromLE, ToLE, TimeToU64, U64ToTime;
    if ts != [] {
      AtConcat(c, pos, ToLE(TimeToU64(ts[0]), 8), EncTimes(ts[1..]));
      Round64(c, pos, TimeToU64(ts[0]));
      TimeRoundTrip(ts[0]);
      TimesRoundTrip(c, pos + 8, ts[1..]);
      assert ts == [ts[0]] + ts[1..];
    }
  }

  predicate FitsImage(m: Image, ids: Ids) {
    && |m.times| <= SIZE_MAX
    && FitsHistory(m.config, ids, |m.times|)
    && FitsNodes(m.paths, [], ids, |m.times|)
  }

  function NormImage(m: Image, ids: Ids): Image {
    Image(m.times, NormHistory(m.config, ids), m.total, NormNodes(m.paths, ids))
  }

  lemma {:induction false} ImageRoundTrip(c: Bytes, m: Image, ids: Ids)
    requires FitsImage(m, ids) && At(c, 0, EncImage(m, ids))
    ensures DecImage(c) == Some(Got(NormImage(m, ids), |EncImage(m, ids)|))
  {
    hide Dec8, Dec32, Dec64, FromLE, ToLE, DecHistory, EncHistory, DecList, EncList, DecTimes, EncTimes, FitsNodes, FitsHistory, NormHistory, NormNodes;
    var k, ts, cf, tot, ps := ToLE(|m.times|, 8), EncTimes(m.times), EncHistory(m.config, ids), ToLE(m.total, 8), EncList(m.paths, ids);
    AtConcat(c, 0, k, ts + (cf + (tot + ps)));
    AtConcat(c, 8, ts, cf + (tot + ps));
    AtConcat(c, 8 + |ts|, cf, tot + ps);
    AtConcat(c, 8 + |ts| + |cf|, tot, ps);
    Round64(c, 0, |m.times|);
    TimesRoundTrip(c, 8, m.times);
    HistoryRoundTrip(c, 8 + |ts|, m.config, ids, |m.times|);
    Round64(c, 8 + |ts| + |cf|, m.total);
    ListRoundTrip(c, 16 + |ts| + |cf|, m.paths, [], ids, |m.times|);
  }

  /** Loading a written file yields the written content, normalised. */
  lemma {:induction false} LoadOfWritten(m: Image, ids: Ids)
    requires FitsImage(m, ids)
    ensures Load(EncImage(m, ids)) == Some(NormImage(m, ids))
  {
    hide EncImage, DecImage, FitsImage, NormImage;
    var c := EncImage(m, ids);
    assert c[0..|c|] == c;
    ImageRoundTrip(c, m, ids);
  }

  // ----- locality -----

  lemma {:induction false} PointsExtend(c: Bytes, x: Bytes, pos: nat, k: nat, backups: nat)
    requires DecPoints(c, pos, k, backups).Some?
    ensures DecPoints(c + x, pos, k, backups) == DecPoints(c, pos, k, backups)
    decreases k
  {
    hide DecPoint;
    if k > 0 {
      PointExtends(c, x, pos, backups);
      PointsExtend(c, x, DecPoint(c, pos, backups).value.pos, k - 1, backups);
    }
  }

  lemma {:induction false} NumberExtends(c: Bytes, x: Bytes, pos: nat, n: nat)
    requires pos + n <= |c|
    ensures (c + x)[pos..pos + n] == c[pos..pos + n]
  {
  }

  lemma {:induction false} FixedExtend(c: Bytes, x: Bytes, pos: nat)
    ensures Dec8(c, pos).Some? ==> Dec8(c + x, pos) == Dec8(c, pos)
    ensures Dec32(c, pos).Some? ==> Dec32(c + x, pos) == Dec32(c, pos)
    ensures Dec64(c, pos).Some? ==> Dec64(c + x, pos) == Dec64(c, pos)
  {
    if pos + 1 <= |c| { NumberExtends(c, x, pos, 1); }
    if pos + 4 <= |c| { NumberExtends(c, x, pos, 4); }
    if pos + 8 <= |c| { NumberExtends(c, x, pos, 8); }
  }

  lemma {:induction false} FileExtends(c: Bytes, x: Bytes, pos: nat)
    requires DecFile(c, pos).Some?
    ensures DecFile(c + x, pos) == DecFile(c, pos)
  {
    hide Dec8, Dec32, Dec64, FromLE;
    FixedExtend(c, x, pos);
    FixedExtend(c, x, pos + 4);
    FixedExtend(c, x, pos + 12);
    var size := Dec64(c, pos + 12).value.value;
    if size > FILE_HASH_SIZE {
      NumberExtends(c, x, pos + 20, 20);
      FixedExtend(c, x, pos + 40);
    } else if size > 0 {
      NumberExtends(c, x, pos + 20, size);
    }
  }

  lemma {:induction false} BodyExtends(c: Bytes, x: Bytes, pos: nat, code: Byte, uid: U32, gid: U32)
    requires DecBody(c, pos, code, uid, gid).Some?
    ensures DecBody(c + x, pos, code, uid, gid) == DecBody(c, pos, code, uid, gid)
  {
    hide FromLE, DecFile, CString;
    FixedExtend(c, x, pos);
    if code == 1 {
      FileExtends(c, x, pos);
    } else if code == 2 {
      NumberExtends(c, x, pos + 8, Dec64(c, pos).value.value);
    } else {
      FixedExtend(c, x, pos + 4);
    }
  }

  lemma {:induction false} StateExtends(c: Bytes, x: Bytes, pos: nat)
    requires DecState(c, pos).Some?
    ensures DecState(c + x, pos) == DecState(c, pos)
  {
    hide FromLE, DecBody;
    FixedExtend(c, x, pos);
    var k := Dec8(c, pos).value.value;
    if k != 0 {
      FixedExtend(c, x, pos + 1);
      FixedExtend(c, x, pos + 5);
      BodyExtends(c, x, pos + 9, k, Dec32(c, pos + 1).value.value, Dec32(c, pos + 5).value.value);
    }
  }

  lemma {:induction false} PointExtends(c: Bytes, x: Bytes, pos: nat, backups: nat)
    requires DecPoint(c, pos, backups).Some?
    ensures DecPoint(c + x, pos, backups) == DecPoint(c, pos, backups)
  {
    hide FromLE, DecState;
    FixedExtend(c, x, pos);
    StateExtends(c, x, pos + 8);
  }

  lemma {:induction false} HistoryExtends(c: Bytes, x: Bytes, pos: nat, backups: nat)
    requires DecHistory(c, pos, backups).Some?
    ensures DecHistory(c + x, pos, backups) == DecHistory(c, pos, backups)
  {
    hide FromLE, DecPoints;
    FixedExtend(c, x, pos);
    PointsExtend(c, x, pos + 8, Dec64(c, pos).value.value, backups);
  }

  lemma {:induction false} NodeExtends(c: Bytes, x: Bytes, pos: nat, parent: Bytes, backups: nat)
    requires DecNode(c, pos, parent, backups).Some?
    ensures DecNode(c + x, pos, parent, backups) == DecNode(c, pos, parent, backups)
    decreases |c| - pos, 1
  {
    hide FromLE, DecHistory, DecList, HasSlash, IsDotElement;
    FixedExtend(c, x, pos);
    var l := Dec64(c, pos).value;
    NumberExtends(c, x, l.pos, l.value);
    var name := DecBytes(c, l.pos, l.value).value;
    FixedExtend(c, x, name.pos);
    HistoryExtends(c, x, name.pos + 1, backups);
    var h := DecHistory(c, name.pos + 1, backups).value;
    ListExtends(c, x, h.pos, AppendPath(parent, name.value), backups);
  }

  lemma {:induction false} ListExtends(c: Bytes, x: Bytes, pos: nat, parent: Bytes, backups: nat)
    requires DecList(c, pos, parent, backups).Some?
    ensures DecList(c + x, pos, parent, backups) == DecList(c, pos, parent, backups)
    decreases |c| - pos, 2
  {
    hide FromLE, DecNodes;
    FixedExtend(c, x, pos);
    NodesExtend(c, x, pos + 8, Dec64(c, pos).value.value, parent, backups);
  }

  lemma {:induction false} NodesExtend(c: Bytes, x: Bytes, pos: nat, k: nat, parent: Bytes, backups: nat)
    requires DecNodes(c, pos, k, parent, backups).Some?
    ensures DecNodes(c + x, pos, k, parent, backups) == DecNodes(c, pos, k, parent, backups)
    decreases |c| - pos, 3, k
  {
    hide DecNode;
    if k > 0 {
      NodeExtends(c, x, pos, parent, backups);
      NodesExtend(c, x, DecNode(c, pos, parent, backups).value.pos, k - 1, parent, backups);
    }
  }

  lemma {:induction false} TimesExtend(c: Bytes, x: Bytes, pos: nat, k: nat)
    requires DecTimes(c, pos, k).Some?
    ensures DecTimes(c + x, pos, k) == DecTimes(c, pos, k)
    decreases k
  {
    if k > 0 {
      FixedExtend(c, x, pos);
      TimesExtend(c, x, pos + 8, k - 1);
    }
  }

  /** More bytes behind a readable content do not change what is read, or where reading stops. */
  lemma {:induction false} ImageExtends(c: Bytes, x: Bytes)
    requires DecImage(c).Some?
    ensures DecImage(c + x) == DecImage(c)
  {
    hide FromLE, DecHistory, DecList, DecTimes;
    FixedExtend(c, x, 0);
    var k := Dec64(c, 0).value;
    TimesExtend(c, x, k.pos, k.value);
    var ts := DecTimes(c, k.pos, k.value).value;
    HistoryExtends(c, x, ts.pos, k.value);
    var config := DecHistory(c, ts.pos, k.value).value;
    FixedExtend(c, x, config.pos);
    ListExtends(c, x, config.pos + 8, [], k.value);
  }

  /** No file that loads is a strict prefix of another one that loads. */
  lemma {:induction false} LoadablesArePrefixFree(c: Bytes, x: Bytes)
    requires Load(c).Some? && x != []
    ensures Load(c + x) == None
  {
    hide DecImage;
    ImageExtends(c, x);
  }

  /** Hence cutting a written file short or appending to it is always noticed. */
  lemma {:induction false} WrittenIsExact(m: Image, ids: Ids, other: Bytes)
    requires FitsImage(m, ids)
    requires other < EncImage(m, ids) || EncImage(m, ids) < other
    ensures Load(other) == None
  {
    hide EncImage, FitsImage, NormImage, Load;
    var c := EncImage(m, ids);
    LoadOfWritten(m, ids);
    if c < other {
      assert other == c + other[|c|..];
      LoadablesArePrefixFree(c, other[|c|..]);
    } else if Load(other).Some? {
      assert c == other + c[|other|..];
      LoadablesArePrefixFree(other, c[|other|..]);
    }
  }
}
