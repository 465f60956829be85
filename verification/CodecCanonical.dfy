/** Every file that can be loaded is the encoding of what it is loaded as, with every list of siblings
    reversed; only link targets with null bytes, which are cut, make a difference. */
module CodecCanonical {
  import opened Data
  import opened Str
  import opened Metadata
  import opened Backup
  import opened Codec
  import opened CodecRoundTrip
  import opened CodecTwice

  /** The encoding of a value that was read between two positions: never longer than what was read; the same
      bytes, if it is not shorter; and not shorter, if no link was read. */
  predicate Covers(c: Bytes, pos: nat, end: nat, e: Bytes, linkFree: bool) {
    && pos <= end <= |c| && |e| <= end - pos
    && (|e| == end - pos ==> e == c[pos..end])
    && (linkFree ==> |e| == end - pos)
  }

  lemma {:induction false} CoversBoth(c: Bytes, pos: nat, mid: nat, end: nat, a: Bytes, b: Bytes, p: bool, q: bool)
    requires Covers(c, pos, mid, a, p) && Covers(c, mid, end, b, q)
    ensures Covers(c, pos, end, a + b, p && q)
  {
    if |a + b| == end - pos { assert c[pos..end] == c[pos..mid] + c[mid..end]; }
  }

  lemma {:induction false} CoversLess(c: Bytes, pos: nat, end: nat, e: Bytes, p: bool, q: bool)
    requires Covers(c, pos, end, e, p) && (q ==> p)
    ensures Covers(c, pos, end, e, q)
  {
  }

  // ----- numbers -----

  lemma {:induction false} ToLEFromLE(bs: Bytes)
    ensures ToLE(FromLE(bs), |bs|) == bs
  {
    if bs != [] {
      ToLEFromLE(bs[1..]);
      var v := FromLE(bs);
      assert v % 256 == bs[0] && v / 256 == FromLE(bs[1..]);
      forall i | 0 <= i < |bs| ensures DigitAt(v, i) == bs[i] {
        if i > 0 { assert ToLE(FromLE(bs[1..]), |bs| - 1)[i - 1] == bs[1..][i - 1]; }
      }
    }
  }

  lemma {:induction false} NumberCovers(c: Bytes, pos: nat, n: nat)
    requires pos + n <= |c|
    ensures Covers(c, pos, pos + n, ToLE(FromLE(c[pos..pos + n]), n), true)
  {
    ToLEFromLE(c[pos..pos + n]);
  }

  lemma {:induction false} Covers64(c: Bytes, pos: nat)
    requires Dec64(c, pos).Some?
    ensures Covers(c, pos, pos + 8, ToLE(Dec64(c, pos).value.value, 8), true)
  {
    NumberCovers(c, pos, 8);
  }

  lemma {:induction false} Covers32(c: Bytes, pos: nat)
    requires Dec32(c, pos).Some?
    ensures Covers(c, pos, pos + 4, ToLE(Dec32(c, pos).value.value, 4), true)
  {
    NumberCovers(c, pos, 4);
  }

  lemma {:induction false} Covers8(c: Bytes, pos: nat)
    requires Dec8(c, pos).Some?
    ensures Covers(c, pos, pos + 1, [Dec8(c, pos).value.value], true)
  {
    assert c[pos..pos + 1] == [c[pos]];
    assert FromLE([c[pos]]) == c[pos] by { assert [c[pos]][1..] == []; }
  }

  lemma {:induction false} CoversBytes(c: Bytes, pos: nat, n: nat)
    requires DecBytes(c, pos, n).Some?
    ensures Covers(c, pos, pos + n, DecBytes(c, pos, n).value.value, true)
  {
  }

  lemma {:induction false} TimeBack(v: U64)
    ensures TimeToU64(U64ToTime(v)) == v
  {
  }

  // ----- states -----

  lemma {:induction false} IdentityCovers(c: Bytes, pos: nat, mode: U32, mtime: I64, size: U64)
    requires pos <= |c| && DecIdentity(c, pos, mode, mtime, size).Some?
    ensures var g := DecIdentity(c, pos, mode, mtime, size).value;
      && Covers(c, pos, g.pos, EncIdentity(g.value), true)
      && g.value.mode == mode && g.value.mtime == mtime && g.value.size == size
  {
    hide Dec8;
    if size > FILE_HASH_SIZE {
      CoversBytes(c, pos, FILE_HASH_SIZE);
      Covers8(c, pos + FILE_HASH_SIZE);
      CoversBoth(c, pos, pos + FILE_HASH_SIZE, pos + FILE_HASH_SIZE + 1, c[pos..pos + FILE_HASH_SIZE], [Dec8(c, pos + FILE_HASH_SIZE).value.value], true, true);
    } else if size > 0 {
      var h := DecBytes(c, pos, size).value.value;
      assert (h + Zeros(20 - size))[..size] == h;
    }
  }

  lemma {:induction false} FileCovers(c: Bytes, pos: nat)
    requires DecFile(c, pos).Some?
    ensures var g := DecFile(c, pos).value; Covers(c, pos, g.pos, EncFile(g.value), true)
  {
    hide Dec32, Dec64, DecIdentity, EncIdentity, ToLE, Covers;
    var m := Dec32(c, pos).value;
    var t := Dec64(c, m.pos).value;
    var s := Dec64(c, t.pos).value;
    Covers32(c, pos);
    Covers64(c, m.pos);
    Covers64(c, t.pos);
    TimeBack(t.value);
    IdentityCovers(c, s.pos, m.value, U64ToTime(t.value), s.value);
    var i := DecFile(c, pos).value;
    CoversBoth(c, t.pos, s.pos, i.pos, ToLE(s.value, 8), EncIdentity(i.value), true, true);
    CoversBoth(c, m.pos, t.pos, i.pos, ToLE(t.value, 8), ToLE(s.value, 8) + EncIdentity(i.value), true, true);
    CoversBoth(c, pos, m.pos, i.pos, ToLE(m.value, 4), ToLE(t.value, 8) + (ToLE(s.value, 8) + EncIdentity(i.value)), true, true);
  }

  lemma {:induction false} LinkCovers(c: Bytes, pos: nat)
    requires Dec64(c, pos).Some? && DecBytes(c, pos + 8, Dec64(c, pos).value.value).Some?
    ensures var l := Dec64(c, pos).value;
      var t := CString(c[l.pos..l.pos + l.value]);
      Covers(c, pos, l.pos + l.value, ToLE(|t|, 8) + t, false)
  {
    hide Dec64, ToLE, CString;
    var l := Dec64(c, pos).value;
    Covers64(c, pos);
    var raw := c[l.pos..l.pos + l.value];
    var t := CString(raw);
    if |t| == l.value {
      assert t == raw;
      CoversBytes(c, l.pos, l.value);
      CoversBoth(c, pos, l.pos, l.pos + l.value, ToLE(l.value, 8), t, true, true);
    } else {
      assert |ToLE(|t|, 8)| == 8;
    }
  }

  lemma {:induction false} BodyCovers(c: Bytes, pos: nat, code: Byte, uid: U32, gid: U32)
    requires DecBody(c, pos, code, uid, gid).Some?
    ensures var g := DecBody(c, pos, code, uid, gid).value;
      && Covers(c, pos, g.pos, EncBody(g.value), !g.value.Symlink?)
      && !g.value.NonExisting? && g.value.uid == uid && g.value.gid == gid && TypeCode(g.value) == code
  {
    hide Dec32, Dec64, DecFile, EncFile, ToLE, CString, Covers;
    if code == 1 {
      FileCovers(c, pos);
    } else if code == 2 {
      LinkCovers(c, pos);
    } else {
      var m := Dec32(c, pos).value;
      var t := Dec64(c, m.pos).value;
      Covers32(c, pos);
      Covers64(c, m.pos);
      TimeBack(t.value);
      CoversBoth(c, pos, m.pos, t.pos, ToLE(m.value, 4), ToLE(t.value, 8), true, true);
    }
  }

  lemma {:induction false} StateCovers(c: Bytes, pos: nat)
    requires DecState(c, pos).Some?
    ensures var g := DecState(c, pos).value; Covers(c, pos, g.pos, EncState(g.value), !g.value.Symlink?)
  {
    hide Dec8, Dec32, DecBody, EncBody, ToLE, Covers;
    var k := Dec8(c, pos).value;
    Covers8(c, pos);
    if k.value != 0 {
      var u := Dec32(c, k.pos).value;
      var g := Dec32(c, u.pos).value;
      Covers32(c, k.pos);
      Covers32(c, u.pos);
      BodyCovers(c, g.pos, k.value, u.value, g.value);
      var s := DecState(c, pos).value;
      var free := !s.value.Symlink?;
      CoversBoth(c, u.pos, g.pos, s.pos, ToLE(g.value, 4), EncBody(s.value), true, free);
      CoversBoth(c, k.pos, u.pos, s.pos, ToLE(u.value, 4), ToLE(g.value, 4) + EncBody(s.value), true, free);
      CoversBoth(c, pos, k.pos, s.pos, [k.value], ToLE(u.value, 4) + (ToLE(g.value, 4) + EncBody(s.value)), true, free);
    }
  }

  // ----- histories -----

  predicate LinkFree(h: seq<Point>) { forall i :: 0 <= i < |h| ==> !h[i].state.Symlink? }

  lemma {:induction false} PointCovers(c: Bytes, pos: nat, backups: nat, ids: Ids)
    requires DecPoint(c, pos, backups).Some? && IsIdentity(ids, backups)
    ensures var g := DecPoint(c, pos, backups).value; Covers(c, pos, g.pos, EncPoint(g.value, ids), !g.value.state.Symlink?)
  {
    hide Dec64, DecState, EncState, ToLE, Covers;
    var id := Dec64(c, pos).value;
    Covers64(c, pos);
    StateCovers(c, id.pos);
    var g := DecPoint(c, pos, backups).value;
    CoversBoth(c, pos, id.pos, g.pos, ToLE(id.value, 8), EncState(g.value.state), true, !g.value.state.Symlink?);
  }

  lemma {:induction false} PointsCover(c: Bytes, pos: nat, k: nat, backups: nat, ids: Ids)
    requires pos <= |c| && DecPoints(c, pos, k, backups).Some? && IsIdentity(ids, backups)
    ensures var g := DecPoints(c, pos, k, backups).value; Covers(c, pos, g.pos, EncPoints(g.value, ids), LinkFree(g.value))
    decreases k
  {
    hide DecPoint, EncPoint, Covers, IsIdentity;
    if k == 0 {
      Nothing(c, pos);
    } else {
      var p := DecPoint(c, pos, backups).value;
      var rest := DecPoints(c, p.pos, k - 1, backups).value;
      PointCovers(c, pos, backups, ids);
      PointsCover(c, p.pos, k - 1, backups, ids);
      CoversBoth(c, pos, p.pos, rest.pos, EncPoint(p.value, ids), EncPoints(rest.value, ids), !p.value.state.Symlink?, LinkFree(rest.value));
      var h := [p.value] + rest.value;
      assert h[1..] == rest.value && h[0] == p.value;
      assert LinkFree(h) ==> !p.value.state.Symlink? && LinkFree(rest.value) by { assert forall i :: 0 <= i < |rest.value| ==> rest.value[i] == h[i + 1]; }
      CoversLess(c, pos, rest.pos, EncPoints(h, ids), !p.value.state.Symlink? && LinkFree(rest.value), LinkFree(h));
    }
  }

  lemma {:induction false} Nothing(c: Bytes, pos: nat)
    requires pos <= |c|
    ensures Covers(c, pos, pos, [], true)
  {
  }

  lemma {:induction false} HistoryCovers(c: Bytes, pos: nat, backups: nat, ids: Ids)
    requires DecHistory(c, pos, backups).Some? && IsIdentity(ids, backups)
    ensures var g := DecHistory(c, pos, backups).value; Covers(c, pos, g.pos, EncHistory(g.value, ids), LinkFree(g.value))
  {
    hide Dec64, DecPoints, EncPoints, ToLE, Covers, IsIdentity;
    var k := Dec64(c, pos).value;
    Covers64(c, pos);
    PointsCover(c, k.pos, k.value, backups, ids);
    var g := DecHistory(c, pos, backups).value;
    CoversBoth(c, pos, k.pos, g.pos, ToLE(k.value, 8), EncPoints(g.value, ids), true, LinkFree(g.value));
  }

  // ----- nodes -----

  predicate NodeFree(n: Node)
    decreases n
  {
    LinkFree(n.history) && forall i :: 0 <= i < |n.subs| ==> NodeFree(n.subs[i])
  }

  predicate AllFree(ns: seq<Node>) { forall i :: 0 <= i < |ns| ==> NodeFree(ns[i]) }

  lemma {:induction false} PolicyBack(code: Byte)
    ensures PolicyCode(PolicyOf(code)) == code
  {
  }

  lemma {:induction false} NameBack(parent: Bytes, name: Bytes)
    requires !EndsWithSlash(parent) && ValidName(name)
    ensures Split(AppendPath(parent, name)).tail == name && !EndsWithSlash(AppendPath(parent, name))
  {
    SplitAppend(parent, name);
    assert name[|name| - 1] != SLASH;
  }

  /** A list with its last node is, reversed, that node and the reversed rest. */
  lemma {:induction false} LastFirst(rest: seq<Node>, n: Node, ids: Ids)
    requires n.hint == NoHint
    ensures NormNodes(rest + [n], ids) == [NormNode(n, ids)] + NormNodes(rest, ids)
    ensures EncNodes(NormNodes(rest + [n], ids), ids) == EncNode(NormNode(n, ids), ids) + EncNodes(NormNodes(rest, ids), ids)
    ensures LiveCount(NormNodes(rest + [n], ids)) == 1 + LiveCount(NormNodes(rest, ids))
  {
    hide NormNode, EncNode;
    NormConcat(rest, [n], ids);
    assert [n][1..] == [] && NormNodes([], ids) == [];
    assert NormNodes([n], ids) == [NormNode(n, ids)];
    var all := [NormNode(n, ids)] + NormNodes(rest, ids);
    assert all[1..] == NormNodes(rest, ids) && all[0] == NormNode(n, ids);
    assert !Wiped(NormNode(n, ids)) by { NormIsFresh(n, ids); }
  }

  lemma {:induction false} NormIsFresh(n: Node, ids: Ids)
    ensures NormNode(n, ids).hint == NoHint
  {
  }

  lemma {:induction false} NodeHeadCovers(c: Bytes, pos: nat, parent: Bytes, backups: nat)
    requires DecNode(c, pos, parent, backups).Some?
    ensures var l := Dec64(c, pos).value;
      var name := DecBytes(c, l.pos, l.value).value;
      var p := Dec8(c, name.pos).value;
      Covers(c, pos, l.pos, ToLE(|name.value|, 8), true) && Covers(c, l.pos, name.pos, name.value, true) && Covers(c, name.pos, p.pos, [p.value], true)
  {
    hide Dec8, Dec64, DecBytes, DecHistory, DecList, ToLE, Covers;
    var l := Dec64(c, pos).value;
    var name := DecBytes(c, l.pos, l.value).value;
    Covers64(c, pos);
    CoversBytes(c, l.pos, l.value);
    Covers8(c, name.pos);
  }

  lemma {:induction false} NodeCovers(c: Bytes, pos: nat, parent: Bytes, backups: nat, ids: Ids)
    requires DecNode(c, pos, parent, backups).Some? && IsIdentity(ids, backups) && !EndsWithSlash(parent)
    ensures var g := DecNode(c, pos, parent, backups).value;
      Covers(c, pos, g.pos, EncNode(NormNode(g.value, ids), ids), NodeFree(g.value)) && g.value.hint == NoHint
    decreases |c| - pos, 1
  {
    hide Dec8, Dec64, DecBytes, DecPoints, DecNodes, EncHistory, EncNodes, LiveCount, ToLE, Covers, IsIdentity, ValidName, EndsWithSlash, Split, NormNodes, NormHistory, NormalHistory;
    var l := Dec64(c, pos).value;
    var name := DecBytes(c, l.pos, l.value).value;
    var path := AppendPath(parent, name.value);
    var p := Dec8(c, name.pos).value;
    var h := DecHistory(c, p.pos, backups).value;
    var g := DecNode(c, pos, parent, backups).value;
    var n, r := g.value, NormNode(g.value, ids);
    NameBack(parent, name.value);
    PolicyBack(p.value);
    NodeHeadCovers(c, pos, parent, backups);
    HistoryCovers(c, p.pos, backups, ids);
    LoadedPointsAreNormal(c, Dec64(c, p.pos).value.pos, Dec64(c, p.pos).value.value, backups);
    HistoryStays(n.history, ids, backups);
    ListCovers(c, h.pos, path, backups, ids);
    NodeFreeParts(n);
    var a, b, d, e := name.value, [p.value], EncHistory(n.history, ids), EncList(r.subs, ids);
    CoversBoth(c, p.pos, h.pos, g.pos, d, e, LinkFree(n.history), AllFree(n.subs));
    CoversBoth(c, name.pos, p.pos, g.pos, b, d + e, true, LinkFree(n.history) && AllFree(n.subs));
    CoversBoth(c, l.pos, name.pos, g.pos, a, b + (d + e), true, LinkFree(n.history) && AllFree(n.subs));
    CoversBoth(c, pos, l.pos, g.pos, ToLE(|a|, 8), a + (b + (d + e)), true, LinkFree(n.history) && AllFree(n.subs));
    assert EncNode(r, ids) == ToLE(|a|, 8) + (a + (b + (d + e)));
  }

  lemma {:induction false} NodeFreeParts(n: Node)
    ensures NodeFree(n) <==> LinkFree(n.history) && AllFree(n.subs)
  {
  }

  lemma {:induction false} ListCovers(c: Bytes, pos: nat, parent: Bytes, backups: nat, ids: Ids)
    requires DecList(c, pos, parent, backups).Some? && IsIdentity(ids, backups) && !EndsWithSlash(parent)
    ensures var g := DecList(c, pos, parent, backups).value;
      Covers(c, pos, g.pos, EncList(NormNodes(g.value, ids), ids), AllFree(g.value))
    decreases |c| - pos, 2
  {
    hide Dec64, DecNodes, EncNodes, ToLE, Covers, IsIdentity, EndsWithSlash, NormNodes, LiveCount, NodeFree;
    var k := Dec64(c, pos).value;
    Covers64(c, pos);
    NodesCover(c, k.pos, k.value, parent, backups, ids);
    var g := DecList(c, pos, parent, backups).value;
    CoversBoth(c, pos, k.pos, g.pos, ToLE(k.value, 8), EncNodes(NormNodes(g.value, ids), ids), true, AllFree(g.value));
  }

  lemma {:induction false} NodesCover(c: Bytes, pos: nat, k: nat, parent: Bytes, backups: nat, ids: Ids)
    requires pos <= |c| && DecNodes(c, pos, k, parent, backups).Some? && IsIdentity(ids, backups) && !EndsWithSlash(parent)
    ensures var g := DecNodes(c, pos, k, parent, backups).value;
      && Covers(c, pos, g.pos, EncNodes(NormNodes(g.value, ids), ids), AllFree(g.value))
      && LiveCount(NormNodes(g.value, ids)) == k
    decreases |c| - pos, 3, k
  {
    hide DecNode, EncNode, Covers, IsIdentity, EndsWithSlash, NormNodes, NodeFree, NormNode;
    if k == 0 {
      Nothing(c, pos);
      assert NormNodes([], ids) == [] by { NothingReversed(ids); }
    } else {
      var n := DecNode(c, pos, parent, backups).value;
      var rest := DecNodes(c, n.pos, k - 1, parent, backups).value;
      NodeCovers(c, pos, parent, backups, ids);
      NodesCover(c, n.pos, k - 1, parent, backups, ids);
      LastFirst(rest.value, n.value, ids);
      var all, e := rest.value + [n.value], EncNode(NormNode(n.value, ids), ids) + EncNodes(NormNodes(rest.value, ids), ids);
      CoversBoth(c, pos, n.pos, rest.pos, EncNode(NormNode(n.value, ids), ids), EncNodes(NormNodes(rest.value, ids), ids), NodeFree(n.value), AllFree(rest.value));
      assert AllFree(all) ==> NodeFree(n.value) && AllFree(rest.value) by {
        assert all[|rest.value|] == n.value;
        assert forall i :: 0 <= i < |rest.value| ==> all[i] == rest.value[i];
      }
      CoversLess(c, pos, rest.pos, e, NodeFree(n.value) && AllFree(rest.value), AllFree(all));
    }
  }

  lemma {:induction false} NothingReversed(ids: Ids)
    ensures NormNodes([], ids) == []
  {
  }

  // ----- whole files -----

  lemma {:induction false} TimesCover(c: Bytes, pos: nat, k: nat)
    requires pos <= |c| && DecTimes(c, pos, k).Some?
    ensures var g := DecTimes(c, pos, k).value; Covers(c, pos, g.pos, EncTimes(g.value), true)
    decreases k
  {
    hide Dec64, ToLE, Covers;
    if k == 0 {
      Nothing(c, pos);
    } else {
      var t := Dec64(c, pos).value;
      var rest := DecTimes(c, t.pos, k - 1).value;
      Covers64(c, pos);
      TimeBack(t.value);
      TimesCover(c, t.pos, k - 1);
      assert ([U64ToTime(t.value)] + rest.value)[1..] == rest.value;
      CoversBoth(c, pos, t.pos, rest.pos, ToLE(t.value, 8), EncTimes(rest.value), true, true);
    }
  }

  /** A loadable file is what is written for its content, with every list of siblings reversed; the latter is
      shorter if a link target was cut at a null byte, and that is the only difference there can be. */
  lemma {:induction false} LoadedIsWritten(c: Bytes, ids: Ids)
    requires Load(c).Some? && IsIdentity(ids, |Load(c).value.times|)
    ensures var m := Load(c).value;
      var w := EncImage(NormImage(m, ids), ids);
      && |w| <= |c| && (|w| == |c| <==> w == c)
      && (LinkFree(m.config) && AllFree(m.paths) ==> w == c)
  {
    hide Dec64, DecTimes, DecHistory, DecList, EncTimes, EncHistory, EncList, ToLE, Covers, IsIdentity, NodeFree, NormNodes, NormHistory, NormalHistory, NormalNodes;
    var m := Load(c).value;
    var k := Dec64(c, 0).value;
    var ts := DecTimes(c, k.pos, k.value).value;
    var h := DecHistory(c, ts.pos, k.value).value;
    var total := Dec64(c, h.pos).value;
    var g := DecImage(c).value;
    Covers64(c, 0);
    TimesCover(c, k.pos, k.value);
    HistoryCovers(c, ts.pos, k.value, ids);
    Covers64(c, h.pos);
    ListCovers(c, total.pos, [], k.value, ids);
    LoadedIsNormal(c);
    HistoryStays(m.config, ids, |m.times|);
    var p, q := LinkFree(m.config), AllFree(m.paths);
    var a, b, d, e := EncTimes(m.times), EncHistory(m.config, ids), ToLE(m.total, 8), EncList(NormNodes(m.paths, ids), ids);
    CoversBoth(c, h.pos, total.pos, g.pos, d, e, true, q);
    CoversBoth(c, ts.pos, h.pos, g.pos, b, d + e, p, q);
    CoversBoth(c, k.pos, ts.pos, g.pos, a, b + (d + e), true, p && q);
    CoversBoth(c, 0, k.pos, g.pos, ToLE(|m.times|, 8), a + (b + (d + e)), true, p && q);
    WholeIsCovered(c, ToLE(|m.times|, 8) + (a + (b + (d + e))), p && q);
  }

  lemma {:induction false} WholeIsCovered(c: Bytes, w: Bytes, free: bool)
    requires Covers(c, 0, |c|, w, free)
    ensures |w| <= |c| && (|w| == |c| <==> w == c) && (free ==> w == c)
  {
    assert c[0..|c|] == c;
  }
}
