/** The metadata file (src/metadata.c): its byte layout, the writer and the reader as functions,
    and the round trip. */
module Codec {
  import opened Data
  import opened Str
  import opened Metadata
  import opened Backup

  // ----- layout -----

  /** The id written for every backup. */
  datatype Ids = Ids(current: nat, past: seq<nat>)

  function IdOf(ids: Ids, b: BackupRef): nat {
    match b
    case Current => ids.current
    case Past(i) => if i < |ids.past| then ids.past[i] else 0
  }

  function PolicyCode(p: Policy): Byte {
    match p
    case NoPolicy => 0
    case Copy => 1
    case Mirror => 2
    case Track => 3
    case Ignore => 4
    case Summarize => 5
    case Unknown(c) => c
  }

  function PolicyOf(code: Byte): Policy {
    if code == 0 then NoPolicy else if code == 1 then Copy else if code == 2 then Mirror
    else if code == 3 then Track else if code == 4 then Ignore else if code == 5 then Summarize
    else Unknown(code)
  }

  function TypeCode(s: PathState): Byte {
    match s
    case NonExisting => 0
    case RegularFile(_, _, _) => 1
    case Symlink(_, _, _) => 2
    case Directory(_, _, _, _) => 3
  }

  function EncState(s: PathState): Bytes {
    if s.NonExisting? then [0]
    else [TypeCode(s)] + (ToLE(s.uid, 4) + (ToLE(s.gid, 4) + EncBody(s)))
  }

  /** What follows the type and the owner. */
  function EncBody(s: PathState): Bytes {
    match s
    case NonExisting => []
    case RegularFile(_, _, i) => EncFile(i)
    case Symlink(_, _, t) => ToLE(|t|, 8) + t
    case Directory(_, _, m, t) => ToLE(m, 4) + ToLE(TimeToU64(t), 8)
  }

  function EncFile(i: FileInfo): Bytes {
    ToLE(i.mode, 4) + (ToLE(TimeToU64(i.mtime), 8) + (ToLE(i.size, 8) + EncIdentity(i)))
  }

  /** Only the defined part of the hash is written, and the slot only if there is a stored file. */
  function EncIdentity(i: FileInfo): Bytes {
    if i.size > FILE_HASH_SIZE then i.hash + [i.slot] else i.hash[..i.size]
  }

  function EncPoint(p: Point, ids: Ids): Bytes { ToLE(IdOf(ids, p.backup), 8) + EncState(p.state) }

  function EncPoints(h: seq<Point>, ids: Ids): Bytes {
    if h == [] then [] else EncPoint(h[0], ids) + EncPoints(h[1..], ids)
  }

  function EncHistory(h: seq<Point>, ids: Ids): Bytes { ToLE(|h|, 8) + EncPoints(h, ids) }

  function LiveCount(ns: seq<Node>): nat {
    if ns == [] then 0 else (if Wiped(ns[0]) then 0 else 1) + LiveCount(ns[1..])
  }

  function NameOf(n: Node): Bytes { Split(n.path).tail }

  function EncNode(n: Node, ids: Ids): Bytes
    decreases n
  {
    ToLE(|NameOf(n)|, 8) + (NameOf(n) + ([PolicyCode(n.policy)] + (EncHistory(n.history, ids) + EncList(n.subs, ids))))
  }

  /** writePathList(): the number of live nodes, then each of them. */
  function EncList(ns: seq<Node>, ids: Ids): Bytes
    decreases ns, 1
  {
    ToLE(LiveCount(ns), 8) + EncNodes(ns, ids)
  }

  function EncNodes(ns: seq<Node>, ids: Ids): Bytes
    decreases ns, 0
  {
    if ns == [] then []
    else (if Wiped(ns[0]) then [] else EncNode(ns[0], ids)) + EncNodes(ns[1..], ids)
  }

  function EncTimes(ts: seq<I64>): Bytes {
    if ts == [] then [] else ToLE(TimeToU64(ts[0]), 8) + EncTimes(ts[1..])
  }

  /** What a metadata file says: the completion times by id, the config history, the path count
      and the path tree. */
  datatype Image = Image(times: seq<I64>, config: seq<Point>, total: U64, paths: seq<Node>)

  function EncImage(c: Image, ids: Ids): Bytes {
    ToLE(|c.times|, 8) + (EncTimes(c.times) + (EncHistory(c.config, ids) + (ToLE(c.total, 8) + EncList(c.paths, ids))))
  }

  // ----- reader -----

  /** A value and the position of the next unread byte. None means the program dies. */
  datatype Got<+T> = Got(value: T, pos: nat)

  function DecNumber(c: Bytes, pos: nat, n: nat): (r: Option<Got<nat>>)
    ensures r.Some? <==> pos + n <= |c|
    ensures r.Some? ==> r.value.pos == pos + n && r.value.value < Pow256(n)
  {
    if pos + n > |c| then None else Some(Got(FromLE(c[pos..pos + n]), pos + n))
  }

  function DecBytes(c: Bytes, pos: nat, n: nat): (r: Option<Got<Bytes>>)
    ensures r.Some? <==> pos + n <= |c|
    ensures r.Some? ==> r.value.pos == pos + n && |r.value.value| == n
  {
    if pos + n > |c| then None else Some(Got(c[pos..pos + n], pos + n))
  }

  function Dec8(c: Bytes, pos: nat): (r: Option<Got<Byte>>)
    ensures r.Some? <==> pos + 1 <= |c|
    ensures r.Some? ==> r.value.pos == pos + 1
  {
    Widths();
    var g :- DecNumber(c, pos, 1);
    Some(Got(g.value, g.pos))
  }

  function Dec32(c: Bytes, pos: nat): (r: Option<Got<U32>>)
    ensures r.Some? <==> pos + 4 <= |c|
    ensures r.Some? ==> r.value.pos == pos + 4
  {
    Widths();
    var g :- DecNumber(c, pos, 4);
    Some(Got(g.value, g.pos))
  }

  function Dec64(c: Bytes, pos: nat): (r: Option<Got<U64>>)
    ensures r.Some? <==> pos + 8 <= |c|
    ensures r.Some? ==> r.value.pos == pos + 8
  {
    Widths();
    var g :- DecNumber(c, pos, 8);
    Some(Got(g.value, g.pos))
  }

  /** A C string ends at its first null byte. */
  function CString(s: Bytes): (r: Bytes)
    ensures r <= s && !(0 in r)
    ensures !(0 in s) ==> r == s
  {
    if s == [] || s[0] == 0 then [] else [s[0]] + CString(s[1..])
  }

  function DecIdentity(c: Bytes, pos: nat, mode: U32, mtime: I64, size: U64): (r: Option<Got<FileInfo>>)
    ensures r.Some? ==> pos <= r.value.pos && (pos <= |c| ==> r.value.pos <= |c|)
  {
    if size > FILE_HASH_SIZE then
      var h :- DecBytes(c, pos, FILE_HASH_SIZE);
      var s :- Dec8(c, h.pos);
      Some(Got(FileInfo(mode, mtime, size, h.value, s.value), s.pos))
    else if size > 0 then
      var h :- DecBytes(c, pos, size);
      Some(Got(FileInfo(mode, mtime, size, h.value + Zeros(20 - size), 0), h.pos))
    else
      Some(Got(FileInfo(mode, mtime, size, Zeros(20), 0), pos))
  }

  function DecFile(c: Bytes, pos: nat): (r: Option<Got<FileInfo>>)
    ensures r.Some? ==> pos < r.value.pos <= |c|
  {
    var m :- Dec32(c, pos);
    var t :- Dec64(c, m.pos);
    var s :- Dec64(c, t.pos);
    DecIdentity(c, s.pos, m.value, U64ToTime(t.value), s.value)
  }

  function DecState(c: Bytes, pos: nat): (r: Option<Got<PathState>>)
    ensures r.Some? ==> pos < r.value.pos <= |c|
  {
    var k :- Dec8(c, pos);
    if k.value == 0 then Some(Got(NonExisting, k.pos))
    else
      var u :- Dec32(c, k.pos);
      var g :- Dec32(c, u.pos);
      DecBody(c, g.pos, k.value, u.value, g.value)
  }

  function DecBody(c: Bytes, pos: nat, code: Byte, uid: U32, gid: U32): (r: Option<Got<PathState>>)
    ensures r.Some? ==> pos < r.value.pos <= |c|
  {
    if code == 1 then
      var i :- DecFile(c, pos);
      Some(Got(RegularFile(uid, gid, i.value), i.pos))
    else if code == 2 then
      var l :- Dec64(c, pos);
      var t :- DecBytes(c, l.pos, l.value);
      Some(Got(Symlink(uid, gid, CString(t.value)), t.pos))
    else if code == 3 then
      var m :- Dec32(c, pos);
      var t :- Dec64(c, m.pos);
      Some(Got(Directory(uid, gid, m.value, U64ToTime(t.value)), t.pos))
    else None
  }

  function DecPoint(c: Bytes, pos: nat, backups: nat): (r: Option<Got<Point>>)
    ensures r.Some? ==> pos < r.value.pos <= |c| && r.value.value.backup.Past? && r.value.value.backup.index < backups
  {
    var id :- Dec64(c, pos);
    if id.value >= backups then None
    else
      var s :- DecState(c, id.pos);
      Some(Got(Point(Past(id.value), s.value), s.pos))
  }

  function DecPoints(c: Bytes, pos: nat, k: nat, backups: nat): (r: Option<Got<seq<Point>>>)
    ensures r.Some? ==> pos <= r.value.pos && (pos <= |c| ==> r.value.pos <= |c|) && |r.value.value| == k
    decreases k
  {
    if k == 0 then Some(Got([], pos))
    else
      var p :- DecPoint(c, pos, backups);
      var rest :- DecPoints(c, p.pos, k - 1, backups);
      Some(Got([p.value] + rest.value, rest.pos))
  }

  function DecHistory(c: Bytes, pos: nat, backups: nat): (r: Option<Got<seq<Point>>>)
    ensures r.Some? ==> pos < r.value.pos <= |c|
  {
    var k :- Dec64(c, pos);
    DecPoints(c, k.pos, k.value, backups)
  }

  function DecNode(c: Bytes, pos: nat, parent: Bytes, backups: nat): (r: Option<Got<Node>>)
    ensures r.Some? ==> pos < r.value.pos <= |c|
    decreases |c| - pos, 1
  {
    var l :- Dec64(c, pos);
    var name :- DecBytes(c, l.pos, l.value);
    if !ValidName(name.value) then None
    else
      var path := AppendPath(parent, name.value);
      var p :- Dec8(c, name.pos);
      var h :- DecHistory(c, p.pos, backups);
      var subs :- DecList(c, h.pos, path, backups);
      Some(Got(Node(path, NoHint, PolicyOf(p.value), h.value, subs.value), subs.pos))
  }

  function DecList(c: Bytes, pos: nat, parent: Bytes, backups: nat): (r: Option<Got<seq<Node>>>)
    ensures r.Some? ==> pos < r.value.pos <= |c|
    decreases |c| - pos, 2
  {
    var k :- Dec64(c, pos);
    DecNodes(c, k.pos, k.value, parent, backups)
  }

  /** Every node is prepended to the nodes read before it. */
  function DecNodes(c: Bytes, pos: nat, k: nat, parent: Bytes, backups: nat): (r: Option<Got<seq<Node>>>)
    ensures r.Some? ==> pos <= r.value.pos && (pos <= |c| ==> r.value.pos <= |c|)
    decreases |c| - pos, 3, k
  {
    if k == 0 then Some(Got([], pos))
    else
      var n :- DecNode(c, pos, parent, backups);
      var rest :- DecNodes(c, n.pos, k - 1, parent, backups);
      Some(Got(rest.value + [n.value], rest.pos))
  }

  function DecTimes(c: Bytes, pos: nat, k: nat): (r: Option<Got<seq<I64>>>)
    ensures r.Some? ==> pos <= r.value.pos && (pos <= |c| ==> r.value.pos <= |c|) && |r.value.value| == k
    decreases k
  {
    if k == 0 then Some(Got([], pos))
    else
      var t :- Dec64(c, pos);
      var rest :- DecTimes(c, t.pos, k - 1);
      Some(Got([U64ToTime(t.value)] + rest.value, rest.pos))
  }

  function DecImage(c: Bytes): (r: Option<Got<Image>>)
    ensures r.Some? ==> r.value.pos <= |c|
  {
    var k :- Dec64(c, 0);
    var ts :- DecTimes(c, k.pos, k.value);
    var config :- DecHistory(c, ts.pos, k.value);
    var total :- Dec64(c, config.pos);
    var paths :- DecList(c, total.pos, [], k.value);
    Some(Got(Image(ts.value, config.value, total.value, paths.value), paths.pos))
  }

  /** metadataLoad(): trailing bytes are an error. */
  function Load(c: Bytes): Option<Image> {
    var g :- DecImage(c);
    if g.pos == |c| then Some(g.value) else None
  }

  // ----- what a round trip does to the values -----

  function NormInfo(i: FileInfo): FileInfo {
    if i.size > FILE_HASH_SIZE then i
    else i.(hash := i.hash[..i.size] + Zeros(20 - i.size), slot := 0)
  }

  function NormState(s: PathState): PathState {
    match s
    case RegularFile(u, g, i) => RegularFile(u, g, NormInfo(i))
    case _ => s
  }

  function NormPoint(p: Point, ids: Ids): Point { Point(Past(IdOf(ids, p.backup)), NormState(p.state)) }

  function NormHistory(h: seq<Point>, ids: Ids): (r: seq<Point>)
    ensures |r| == |h|
  {
    seq(|h|, i requires 0 <= i < |h| => NormPoint(h[i], ids))
  }

  function NormNode(n: Node, ids: Ids): Node
    decreases n
  {
    Node(n.path, NoHint, n.policy, NormHistory(n.history, ids), NormNodes(n.subs, ids))
  }

  /** Wiped nodes are gone with everything below them; the others come back in reverse order. */
  function NormNodes(ns: seq<Node>, ids: Ids): seq<Node>
    decreases ns
  {
    if ns == [] then []
    else NormNodes(ns[1..], ids) + if Wiped(ns[0]) then [] else [NormNode(ns[0], ids)]
  }

  // ----- what can be written -----

  predicate FitsState(s: PathState) { s.Symlink? ==> |s.target| <= SIZE_MAX && !(0 in s.target) }

  /** Sizes fit 64 bits, ids are below the number of backups, and no symlink target holds a null
      byte, which readlink() never reports. */
  predicate FitsHistory(h: seq<Point>, ids: Ids, backups: nat) {
    && |h| <= SIZE_MAX
    && (forall i :: 0 <= i < |h| ==> FitsState(h[i].state) && IdOf(ids, h[i].backup) < backups)
  }

  predicate FitsPolicy(p: Policy) { p.Unknown? ==> p.code > 5 }

  /** Every live node is named by its parent's path and a valid file name. */
  predicate FitsNode(n: Node, parent: Bytes, ids: Ids, backups: nat)
    decreases n
  {
    && ValidName(NameOf(n)) && n.path == AppendPath(parent, NameOf(n)) && |NameOf(n)| <= SIZE_MAX
    && FitsPolicy(n.policy)
    && FitsHistory(n.history, ids, backups)
    && FitsNodes(n.subs, n.path, ids, backups)
  }

  predicate FitsNodes(ns: seq<Node>, parent: Bytes, ids: Ids, backups: nat)
    decreases ns
  {
    && |ns| <= SIZE_MAX
    && (forall i :: 0 <= i < |ns| && !Wiped(ns[i]) ==> FitsNode(ns[i], parent, ids, backups))
  }
}
