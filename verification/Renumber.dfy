/** Compaction of backup ids (src/metadata.c:583-609) and the lookup that depends on it
    (src/restore.c:13-31). */
module Renumber {
  import opened Data
  import opened Str
  import opened Metadata
  import opened Backup
  import opened RefCounts
  import opened History
  import opened Codec

  /** The reference counts and completion times of all backups. */
  datatype Ledger = Ledger(currentRefs: int, currentTime: I64, pastRefs: seq<int>, pastTimes: seq<I64>)

  predicate ValidLedger(l: Ledger) { |l.pastRefs| == |l.pastTimes| }

  predicate InLedger(l: Ledger, b: BackupRef) { b.Past? ==> b.index < |l.pastRefs| }

  predicate Referenced(l: Ledger, b: BackupRef)
    requires InLedger(l, b)
  {
    match b case Current => l.currentRefs > 0 case Past(i) => l.pastRefs[i] > 0
  }

  /** How many of the first k past backups are referenced. */
  function CountReferenced(refs: seq<int>, k: nat): (r: nat)
    requires k <= |refs|
    ensures r <= k
  {
    if k == 0 then 0 else CountReferenced(refs, k - 1) + if refs[k - 1] > 0 then 1 else 0
  }

  function FirstPastId(l: Ledger): nat { if l.currentRefs > 0 then 1 else 0 }

  /** The ids after renumbering; an unreferenced backup keeps its old id, which is its index. */
  function NewIds(l: Ledger): Ids {
    Ids(0, seq(|l.pastRefs|, i requires 0 <= i < |l.pastRefs| =>
      if l.pastRefs[i] > 0 then FirstPastId(l) + CountReferenced(l.pastRefs, i) else i))
  }

  function IdCount(l: Ledger): nat { FirstPastId(l) + CountReferenced(l.pastRefs, |l.pastRefs|) }

  /** What belongs to the referenced ones among the first k past backups. */
  function Kept<T>(refs: seq<int>, xs: seq<T>, k: nat): (r: seq<T>)
    requires |refs| == |xs| && k <= |refs|
    ensures |r| == CountReferenced(refs, k)
  {
    if k == 0 then [] else Kept(refs, xs, k - 1) + if refs[k - 1] > 0 then [xs[k - 1]] else []
  }

  /** A table with one entry for each backup, compacted to the referenced backups. */
  function Table<T>(l: Ledger, current: T, past: seq<T>): (r: seq<T>)
    requires |past| == |l.pastRefs|
    ensures |r| == IdCount(l)
  {
    (if l.currentRefs > 0 then [current] else []) + Kept(l.pastRefs, past, |l.pastRefs|)
  }

  /** The written table of completion times. */
  function NewTimes(l: Ledger): (r: seq<I64>)
    requires ValidLedger(l)
    ensures |r| == IdCount(l)
  {
    Table(l, l.currentTime, l.pastTimes)
  }

  function TimeOf(l: Ledger, b: BackupRef): I64
    requires ValidLedger(l) && InLedger(l, b)
  {
    match b case Current => l.currentTime case Past(i) => l.pastTimes[i]
  }

  lemma {:induction false} CountGrows(refs: seq<int>, i: nat, j: nat)
    requires i <= j <= |refs|
    ensures CountReferenced(refs, i) <= CountReferenced(refs, j)
    ensures i < j && refs[i] > 0 ==> CountReferenced(refs, i) < CountReferenced(refs, j)
    decreases j - i
  {
    if i < j {
      CountGrows(refs, i, j - 1);
    }
  }

  lemma {:induction false} KeptAt<T>(refs: seq<int>, xs: seq<T>, i: nat, k: nat)
    requires |refs| == |xs| && i < k <= |refs| && refs[i] > 0
    ensures CountReferenced(refs, i) < CountReferenced(refs, k)
    ensures Kept(refs, xs, k)[CountReferenced(refs, i)] == xs[i]
  {
    CountGrows(refs, i, k);
    if i < k - 1 { KeptAt(refs, xs, i, k - 1); }
  }

  /** Entry k of a compacted table belongs to the backup with id k. */
  lemma {:induction false} TableEntry<T>(l: Ledger, current: T, past: seq<T>, b: BackupRef)
    requires |past| == |l.pastRefs| && InLedger(l, b) && Referenced(l, b)
    ensures IdOf(NewIds(l), b) < IdCount(l)
    ensures Table(l, current, past)[IdOf(NewIds(l), b)] == if b.Past? then past[b.index] else current
  {
    if b.Past? { KeptAt(l.pastRefs, past, b.index, |l.pastRefs|); }
  }

  /** Among referenced backups, ids grow strictly with age, start at 0 for the current backup, stay
      below the number of written times, and entry k of the table is the time of the backup with id k. */
  lemma {:induction false} IdsAreMonotone(l: Ledger, a: BackupRef, b: BackupRef)
    requires ValidLedger(l) && InLedger(l, a) && InLedger(l, b) && Referenced(l, a) && Referenced(l, b)
    ensures IdOf(NewIds(l), a) < IdCount(l) && NewTimes(l)[IdOf(NewIds(l), a)] == TimeOf(l, a)
    ensures IdOf(NewIds(l), a) < IdOf(NewIds(l), b) <==> Age(a) < Age(b)
    ensures a.Current? ==> IdOf(NewIds(l), a) == 0
  {
    TableEntry(l, l.currentTime, l.pastTimes, a);
    if a.Past? && b.Past? {
      if a.index < b.index { CountGrows(l.pastRefs, a.index, b.index); }
      else { CountGrows(l.pastRefs, b.index, a.index); }
    }
  }

  /** Every id below the count is the id of a referenced backup. */
  lemma {:induction false} IdsAreOnto(l: Ledger, id: nat) returns (b: BackupRef)
    requires ValidLedger(l) && id < IdCount(l)
    ensures InLedger(l, b) && Referenced(l, b) && IdOf(NewIds(l), b) == id
  {
    if id < FirstPastId(l) {
      b := Current;
    } else {
      var i := NthReferenced(l.pastRefs, id - FirstPastId(l), |l.pastRefs|);
      b := Past(i);
    }
  }

  lemma {:induction false} NthReferenced(refs: seq<int>, n: nat, k: nat) returns (i: nat)
    requires k <= |refs| && n < CountReferenced(refs, k)
    ensures i < k && refs[i] > 0 && CountReferenced(refs, i) == n
  {
    if n < CountReferenced(refs, k - 1) {
      i := NthReferenced(refs, n, k - 1);
    } else {
      i := k - 1;
    }
  }

  // ----- lookup -----

  /** searchPathState() in a loaded tree, where the id of a backup is its index. */
  function SearchPathState(policy: Policy, h: seq<Point>, id: nat): Option<PathState> {
    if h == [] then None
    else if !policy.Track? then Some(h[0].state)
    else FirstAtOrBefore(h, id)
  }

  function FirstAtOrBefore(h: seq<Point>, id: nat): Option<PathState> {
    if h == [] then None
    else if h[0].backup.Past? && h[0].backup.index >= id then Some(h[0].state)
    else FirstAtOrBefore(h[1..], id)
  }

  /** The newest recorded state that is at least as old as the given backup. */
  function StateAsOf(h: seq<Point>, age: nat): Option<PathState> {
    if h == [] then None
    else if Age(h[0].backup) >= age then Some(h[0].state)
    else StateAsOf(h[1..], age)
  }

  predicate AllReferenced(l: Ledger, h: seq<Point>) {
    forall i :: 0 <= i < |h| ==> InLedger(l, h[i].backup) && Referenced(l, h[i].backup)
  }

  function NormOption(s: Option<PathState>): Option<PathState> {
    if s.None? then None else Some(NormState(s.value))
  }

  /** Looking a surviving backup up by its new id finds what the old history says about it. */
  lemma {:induction false} CompactionKeepsLookup(l: Ledger, h: seq<Point>, b: BackupRef)
    requires ValidLedger(l) && InLedger(l, b) && Referenced(l, b) && AllReferenced(l, h)
    ensures FirstAtOrBefore(NormHistory(h, NewIds(l)), IdOf(NewIds(l), b)) == NormOption(StateAsOf(h, Age(b)))
    decreases |h|
  {
    if h != [] {
      var ids := NewIds(l);
      IdsAreMonotone(l, h[0].backup, b);
      assert NormHistory(h, ids)[1..] == NormHistory(h[1..], ids);
      assert Age(h[0].backup) >= Age(b) <==> IdOf(ids, h[0].backup) >= IdOf(ids, b);
      CompactionKeepsLookup(l, h[1..], b);
    }
  }
}
