/** Writing loaded metadata again: one round trip reverses every list of siblings, two are the
    identity. */
module CodecTwice {
  import opened Data
  import opened Str
  import opened Metadata
  import opened Backup
  import opened Codec
  import opened CodecRoundTrip
  import opened Renumber

  predicate NormalHistory(h: seq<Point>, backups: nat) {
    forall i :: 0 <= i < |h| ==> h[i].backup.Past? && h[i].backup.index < backups && NormState(h[i].state) == h[i].state
  }

  /** A node as it is loaded: no hints, known backups, only the defined part of each hash. */
  predicate NormalNode(n: Node, backups: nat)
    decreases n
  {
    n.hint == NoHint && NormalHistory(n.history, backups) && forall i :: 0 <= i < |n.subs| ==> NormalNode(n.subs[i], backups)
  }

  predicate NormalNodes(ns: seq<Node>, backups: nat) { forall i :: 0 <= i < |ns| ==> NormalNode(ns[i], backups) }

  predicate NormalImage(m: Image) { NormalHistory(m.config, |m.times|) && NormalNodes(m.paths, |m.times|) }

  // ----- everything that is loaded is normal -----

  lemma {:induction false} NormStateTwice(s: PathState)
    ensures NormState(NormState(s)) == NormState(s)
  {
    if s.RegularFile? && s.info.size <= FILE_HASH_SIZE {
      assert NormInfo(s.info).hash[..s.info.size] == s.info.hash[..s.info.size];
    }
  }

  lemma {:induction false} WrittenHistoryIsNormal(h: seq<Point>, ids: Ids, backups: nat)
    requires FitsHistory(h, ids, backups)
    ensures NormalHistory(NormHistory(h, ids), backups)
  {
    hide NormState;
    forall i | 0 <= i < |h| ensures NormState(NormState(h[i].state)) == NormState(h[i].state) { NormStateTwice(h[i].state); }
  }

  lemma {:induction false} WrittenNodesAreNormal(ns: seq<Node>, parent: Bytes, ids: Ids, backups: nat)
    requires FitsNodes(ns, parent, ids, backups)
    ensures NormalNodes(NormNodes(ns, ids), backups)
    decreases ns
  {
    if ns != [] {
      assert FitsNodes(ns[1..], parent, ids, backups) by {
        assert forall i :: 0 <= i < |ns[1..]| ==> ns[1..][i] == ns[i + 1];
      }
      WrittenNodesAreNormal(ns[1..], parent, ids, backups);
      if !Wiped(ns[0]) {
        WrittenHistoryIsNormal(ns[0].history, ids, backups);
        WrittenNodesAreNormal(ns[0].subs, ns[0].path, ids, backups);
      }
    }
  }

  lemma {:induction false} WrittenIsNormal(m: Image, ids: Ids)
    requires FitsImage(m, ids)
    ensures NormalImage(NormImage(m, ids))
  {
    WrittenHistoryIsNormal(m.config, ids, |m.times|);
    WrittenNodesAreNormal(m.paths, [], ids, |m.times|);
  }

  // ----- whatever bytes are loaded -----

  lemma {:induction false} LoadedInfoIsNormal(c: Bytes, pos: nat)
    ensures DecFile(c, pos).Some? ==> NormInfo(DecFile(c, pos).value.value) == DecFile(c, pos).value.value
  {
    hide Dec32, Dec64;
    if DecFile(c, pos).Some? {
      var m := Dec32(c, pos).value;
      var t := Dec64(c, m.pos).value;
      var size := Dec64(c, t.pos).value;
      var i := DecFile(c, pos).value.value;
      if 0 < size.value <= FILE_HASH_SIZE {
        var h := DecBytes(c, size.pos, size.value).value.value;
        assert i.hash == h + Zeros(20 - size.value);
        assert i.hash[..size.value] == h;
      } else if size.value == 0 {
        assert i.hash[..0] + Zeros(20) == Zeros(20);
      }
    }
  }

  lemma {:induction false} LoadedStateIsNormal(c: Bytes, pos: nat)
    ensures DecState(c, pos).Some? ==> NormState(DecState(c, pos).value.value) == DecState(c, pos).value.value
  {
    hide Dec8, Dec32, Dec64, DecFile;
    if DecState(c, pos).Some? && Dec8(c, pos).value.value != 0 {
      var k := Dec8(c, pos).value;
      var u := Dec32(c, k.pos).value;
      var g := Dec32(c, u.pos).value;
      LoadedInfoIsNormal(c, g.pos);
    }
  }

  lemma {:induction false} LoadedPointsAreNormal(c: Bytes, pos: nat, k: nat, backups: nat)
    ensures DecPoints(c, pos, k, backups).Some? ==> NormalHistory(DecPoints(c, pos, k, backups).value.value, backups)
    decreases k
  {
    hide Dec64, DecState;
    if DecPoints(c, pos, k, backups).Some? && k > 0 {
      LoadedStateIsNormal(c, Dec64(c, pos).value.pos);
      LoadedPointsAreNormal(c, DecPoint(c, pos, backups).value.pos, k - 1, backups);
    }
  }

  lemma {:induction false} LoadedNodeIsNormal(c: Bytes, pos: nat, parent: Bytes, backups: nat)
    ensures DecNode(c, pos, parent, backups).Some? ==> NormalNode(DecNode(c, pos, parent, backups).value.value, backups)
    decreases |c| - pos, 1
  {
    hide Dec8, Dec64, DecBytes, DecPoints, ValidName, AppendPath, NormalHistory;
    if DecNode(c, pos, parent, backups).Some? {
      var l := Dec64(c, pos).value;
      var name := DecBytes(c, l.pos, l.value).value;
      var p := Dec8(c, name.pos).value;
      var k := Dec64(c, p.pos).value;
      LoadedPointsAreNormal(c, k.pos, k.value, backups);
      var h := DecHistory(c, p.pos, backups).value;
      var path := AppendPath(parent, name.value);
      assert DecList(c, h.pos, path, backups).Some?;
      var n := Dec64(c, h.pos).value;
      LoadedNodesAreNormal(c, n.pos, n.value, path, backups);
    }
  }

  lemma {:induction false} LoadedNodesAreNormal(c: Bytes, pos: nat, k: nat, parent: Bytes, backups: nat)
    ensures DecNodes(c, pos, k, parent, backups).Some? ==> NormalNodes(DecNodes(c, pos, k, parent, backups).value.value, backups)
    decreases |c| - pos, 3, k
  {
    hide DecNode, NormalNode;
    if DecNodes(c, pos, k, parent, backups).Some? && k > 0 {
      LoadedNodeIsNormal(c, pos, parent, backups);
      LoadedNodesAreNormal(c, DecNode(c, pos, parent, backups).value.pos, k - 1, parent, backups);
    }
  }

  /** Everything that any bytes load as is in normal form. */
  lemma {:induction false} LoadedIsNormal(c: Bytes)
    ensures Load(c).Some? ==> NormalImage(Load(c).value)
  {
    hide Dec64, DecTimes, DecPoints, DecNodes, NormalHistory, NormalNodes;
    if Load(c).Some? {
      var k := Dec64(c, 0).value;
      var ts := DecTimes(c, k.pos, k.value).value;
      var h := Dec64(c, ts.pos).value;
      LoadedPointsAreNormal(c, h.pos, h.value, k.value);
      var total := Dec64(c, DecHistory(c, ts.pos, k.value).value.pos).value;
      var n := Dec64(c, total.pos).value;
      LoadedNodesAreNormal(c, n.pos, n.value, [], k.value);
    }
  }

  // ----- two round trips -----

  /** Ids that are the index already, as for loaded metadata. */
  predicate IsIdentity(ids: Ids, backups: nat) {
    |ids.past| == backups && forall i :: 0 <= i < backups ==> ids.past[i] == i
  }

  lemma {:induction false} NormConcat(a: seq<Node>, b: seq<Node>, ids: Ids)
    ensures NormNodes(a + b, ids) == NormNodes(b, ids) + NormNodes(a, ids)
  {
    if a == [] {
      assert a + b == b;
    } else {
      assert (a + b)[1..] == a[1..] + b;
      NormConcat(a[1..], b, ids);
    }
  }

  lemma {:induction false} HistoryStays(h: seq<Point>, ids: Ids, backups: nat)
    requires NormalHistory(h, backups) && IsIdentity(ids, backups)
    ensures NormHistory(h, ids) == h
  {
  }

  lemma {:induction false} NodesTwice(ns: seq<Node>, ids: Ids, backups: nat)
    requires NormalNodes(ns, backups) && IsIdentity(ids, backups)
    ensures NormNodes(NormNodes(ns, ids), ids) == ns
    decreases ns
  {
    hide NormHistory, NormalHistory;
    if ns != [] {
      var n := ns[0];
      assert NormalNode(n, backups);
      HistoryStays(n.history, ids, backups);
      var once := NormNode(n, ids);
      NodesTwice(n.subs, ids, backups);
      NodesTwice(ns[1..], ids, backups);
      NormConcat(NormNodes(ns[1..], ids), [once], ids);
      assert NormNodes([once], ids) == [n] by { assert [once][1..] == []; }
    }
  }

  /** The ids of loaded metadata stay what they are as long as every backup is referenced. */
  lemma {:induction false} LoadedIdsStay(l: Ledger)
    requires l.currentRefs <= 0 && forall i :: 0 <= i < |l.pastRefs| ==> l.pastRefs[i] > 0
    ensures IsIdentity(NewIds(l), |l.pastRefs|)
  {
    forall i | 0 <= i < |l.pastRefs| ensures CountReferenced(l.pastRefs, i) == i { AllCounted(l.pastRefs, i); }
  }

  lemma {:induction false} AllCounted(refs: seq<int>, k: nat)
    requires k <= |refs| && forall i :: 0 <= i < |refs| ==> refs[i] > 0
    ensures CountReferenced(refs, k) == k
  {
    if k > 0 { AllCounted(refs, k - 1); }
  }

  /** Loaded metadata that is written and loaded twice more is what it was. */
  lemma {:induction false} TwoRoundTripsAreIdentity(m: Image, l: Ledger)
    requires NormalImage(m) && |l.pastRefs| == |m.times|
    requires l.currentRefs <= 0 && forall i :: 0 <= i < |l.pastRefs| ==> l.pastRefs[i] > 0
    requires FitsImage(m, NewIds(l)) && FitsImage(NormImage(m, NewIds(l)), NewIds(l))
    ensures var once := Load(EncImage(m, NewIds(l)));
      once.Some? && Load(EncImage(once.value, NewIds(l))) == Some(m)
  {
    hide EncImage, Load, NewIds, FitsImage, NormNodes, NormHistory;
    LoadedIdsStay(l);
    var once := NormImage(m, NewIds(l));
    LoadOfWritten(m, NewIds(l));
    LoadOfWritten(once, NewIds(l));
    HistoryStays(m.config, NewIds(l), |m.times|);
    NodesTwice(m.paths, NewIds(l), |m.times|);
  }
}
