/** The in-place form of src/backup.c and src/backup-helpers.c: counters are fields, sibling lists
    are walked in loops, and the search results are consumed one at a time. */
module BackupPass {
  import opened Data
  import opened Str
  import opened Metadata
  import opened Backup
  import opened RefCounts
  import opened RefCountsExact

  /** What searchGetNext() hands out. A hit carries no children: they follow as further results. */
  datatype Event = Hit(result: Found) | EndOfDirectory | EndOfSearch

  function Flatten(f: Found): seq<Event>
    decreases f
  {
    [Hit(f.(children := []))] + if f.entry.Dir? then FlattenAll(f.children) + [EndOfDirectory] else []
  }

  function FlattenAll(fs: seq<Found>): seq<Event>
    decreases fs
  {
    if fs == [] then [] else Flatten(fs[0]) + FlattenAll(fs[1..])
  }

  predicate ValidRef(b: BackupRef, k: nat) { b.Past? ==> b.index < k }

  /** Histories whose backups exist and which survive popping a removed point. */
  predicate Good(n: Node, k: nat)
    decreases n
  {
    && GoodHistory(n.policy, n.history, k)
    && (forall i :: 0 <= i < |n.subs| ==> Good(n.subs[i], k))
  }

  predicate GoodHistory(policy: Policy, h: seq<Point>, k: nat) {
    && h != [] && !h[|h| - 1].state.NonExisting?
    && (forall i :: 0 <= i < |h| - 1 ==> !h[i].state.NonExisting? || !h[i + 1].state.NonExisting?)
    && (policy.Track? || !h[0].state.NonExisting?)
    && (forall i :: 0 <= i < |h| ==> ValidRef(h[i].backup, k))
  }

  predicate AllGood(ns: seq<Node>, k: nat) { forall i :: 0 <= i < |ns| ==> Good(ns[i], k) }

  /** applyNodeChanges(): one comparison after the other, overwriting state and hint. */
  method ApplyChanges(env: Env, hint: Hint, state: PathState, e: Entry) returns (h: Hint, s: PathState)
    requires SameType(state, e)
    ensures (h, s) == ApplyNodeChanges(env, hint, state, e)
  {
    h, s := hint, state;
    if s.uid != e.uid || s.gid != e.gid {
      h := SetFlag(h, OwnerChanged);
      s := s.(uid := e.uid, gid := e.gid);
    }
    if s.RegularFile? {
      var info := s.info;
      if info.mode != e.mode {
        h := SetFlag(h, PermissionsChanged);
        info := info.(mode := e.mode);
      }
      if info.mtime != e.mtime {
        h := SetFlag(h, TimestampChanged);
        info := info.(mtime := e.mtime);
      }
      if info.size != |e.content| {
        h := SetFlag(h, ContentChanged);
        info := info.(size := |e.content|);
      } else if Has(h, TimestampChanged) && info.size > 0 {
        var id := Identity(env, e.content);
        var used := IdentityLength(info.size);
        if info.hash[..used] != id {
          h := SetFlag(SetFlag(h, ContentChanged), FreshHash);
          info := info.(hash := StoreIdentity(info.hash, id));
        }
      }
      s := s.(info := info);
    } else if s.Symlink? {
      if s.target != e.target {
        s := s.(target := e.target);
        h := SetFlag(h, ContentChanged);
      }
    } else {
      if s.mode != e.mode {
        h := SetFlag(h, PermissionsChanged);
        s := s.(mode := e.mode);
      }
      if s.mtime != e.mtime {
        h := SetFlag(h, TimestampChanged);
        s := s.(mtime := e.mtime);
      }
    }
  }

  method ChangeNode(env: Env, hint: Hint, state: PathState, f: Found) returns (h: Hint, s: PathState)
    requires !f.entry.Other? && !state.NonExisting?
    ensures (h, s) == HandleNodeChanges(env, hint, state, f)
    ensures !s.NonExisting?
  {
    h, s := HandleFiletypeChanges(hint, state, f.entry), state;
    if h.core == NoFlags {
      if SameType(state, f.entry) { h, s := ApplyChanges(env, h, s, f.entry); }
    } else if f.policy != NoPolicy {
      s := StateOf(f.entry);
    }
  }

  function TruncateDelta(h: seq<Point>, c: Counter): int
    requires h != []
  {
    (if |PopRemoved(h)| < |h| then -One(h[0].backup, c) else 0)
    + (if |PopRemoved(h)| > 1 then DecrementDelta(PopRemoved(h)[1..], c) else 0)
  }

  lemma {:induction false} PolicyDeltaParts(n: Node, policy: Policy)
    requires n.policy != policy && n.policy.Track? && n.history != []
    ensures forall c ::
      PolicyDelta(n, policy, c) == TruncateDelta(n.history, c) + (if WipesSubnodes(n, policy) then WipeAllDelta(n.subs, c) else 0)
  {
  }

  // ----- no operation takes more from a counter than its nodes contribute -----

  lemma {:induction false} WipeSpends(n: Node)
    ensures forall c :: WipeRecDelta(n, c) == -(Tally(n, c) as int)
    ensures forall c :: WipeDelta(n, c) + Tally(n, c) == Tally(PrepareWipe(n), c)
  {
    forall c { WipeRecCounts(n, c); }
    forall c { PrepareWipeCounts(n, c); }
  }

  lemma {:induction false} PolicySpends(n: Node, policy: Policy)
    requires !Wiped(n)
    ensures forall c :: PolicyDelta(n, policy, c) == Tally(HandlePolicyChanges(n, policy), c) - Tally(n, c)
    ensures !Wiped(HandlePolicyChanges(n, policy))
  {
    forall c { PolicyCounts(n, policy, c); }
    PolicyCounts(n, policy, Total);
  }

  lemma {:induction false} NotFoundSpends(env: Env, ns: seq<Node>, i: nat, parent: Option<SearchNode>, parentPolicy: Policy)
    requires i < |ns|
    ensures forall c :: TallyAll(ns[i..], c) == Tally(ns[i], c) + TallyAll(ns[i + 1..], c)
    ensures forall c :: NotFoundDelta(env, ns[i], parent, parentPolicy, c) + Tally(ns[i], c) >= 0
  {
    assert ns[i..][0] == ns[i] && ns[i..][1..] == ns[i + 1..];
    forall c ensures NotFoundDelta(env, ns[i], parent, parentPolicy, c) + Tally(ns[i], c) >= 0 {
      NotFoundCounts(env, ns[i], parent, parentPolicy, c);
    }
  }

  lemma {:induction false} SettleSpends(env: Env, n: Node, f: Found)
    ensures var r := n.(subs := SettleSubnodes(env, n, f));
      && (forall c :: SettleDelta(env, n, f, c) + Tally(n, c) == Tally(r, c))
      && (forall c :: Tally(n, c) >= TallyAll(n.subs, c))
      && (forall c :: WipeDelta(r, c) + Tally(r, c) >= 0)
  {
    forall c { SettleCounts(env, n, f, c); }
    WipeSpends(n.(subs := SettleSubnodes(env, n, f)));
  }

  lemma {:induction false} MergeSpends(env: Env, list: seq<Node>, f: Found)
    requires SafeOne(env, list, f)
    ensures forall c :: MergeOneDelta(env, list, f, c) + TallyAll(list, c) == TallyAll(MergeOne(env, list, f), c)
  {
    forall c { MergeOneCounts(env, list, f, c); }
  }

  /** Enough is left for the found node, for what is found inside it and for completing it. */
  lemma {:induction false} ReachSpends(env: Env, list: seq<Node>, f: Found)
    requires !f.entry.Other? && SafeOne(env, list, f)
    ensures var i := IndexOf(list, f.path);
      var n := ReachedNode(env, list, f);
      && (i < |list| ==> !Wiped(list[i]))
      && (forall c :: ReachedDelta(env, list, f, c) + TallyAll(list, c) >= Tally(n, c))
      && (forall c :: Tally(n, c) >= TallyAll(n.subs, c))
      && (f.entry.Dir? ==> SafeAll(env, n.subs, f.children))
      && (forall c :: MergeInsideDelta(env, n, f, c) + Tally(n, c) == Tally(MergeInside(env, n, f), c))
  {
    var i := IndexOf(list, f.path);
    var n := ReachedNode(env, list, f);
    forall c { MergeInsideCounts(env, n, f, c); }
    forall c ensures ReachedDelta(env, list, f, c) + TallyAll(list, c) >= Tally(n, c) {
      if i < |list| {
        FoundCounts(env, list[i], f, c);
        TallySplit(list, i, c);
      } else {
        NewNodeTally(f, c);
      }
    }
  }

  lemma {:induction false} HeadIsCounted(n: Node, c: Counter)
    requires !Wiped(n) && n.history != [] && c == Refs(n.history[0].backup)
    ensures Tally(n, c) > 0
  {
  }

  lemma {:induction false} GoodHasHead(n: Node, k: nat)
    requires Good(n, k)
    ensures n.history != [] && ValidRef(n.history[0].backup, k)
  {
  }

  /** A policy change spends no more than the node is counted with, and leaves one for its newest point. */
  lemma {:induction false} HeadSpends(n: Node, policy: Policy, r: Node)
    requires !Wiped(n) && r == HandlePolicyChanges(n, policy) && r.history != []
    ensures forall c :: PolicyDelta(n, policy, c) + Tally(n, c) >= if c == Refs(r.history[0].backup) then 1 else 0
  {
    hide HandlePolicyChanges, PolicyDelta, Tally;
    PolicySpends(n, policy);
    HeadIsCounted(r, Refs(r.history[0].backup));
  }

  class Pass {
    const env: Env
    var currentRefs: int
    var pastRefs: seq<int>
    var totalPathCount: int
    var events: seq<Event>
    var position: nat
    /** Whether some counter was decremented although it was zero. */
    ghost var underflowed: bool

    constructor (env: Env, pastRefs: seq<int>, totalPathCount: int, events: seq<Event>)
      ensures this.env == env && this.pastRefs == pastRefs && this.totalPathCount == totalPathCount
      ensures this.events == events && position == 0 && currentRefs == 0 && !underflowed
    {
      this.env, this.pastRefs, this.totalPathCount, this.events := env, pastRefs, totalPathCount, events;
      currentRefs, position, underflowed := 0, 0, false;
    }

    predicate Known(c: Counter) reads this`pastRefs { c.Refs? ==> ValidRef(c.backup, |pastRefs|) }

    function CountOf(c: Counter): int reads this`pastRefs, this`currentRefs, this`totalPathCount {
      match c
      case Total => totalPathCount
      case Refs(Current) => currentRefs
      case Refs(Past(i)) => if i < |pastRefs| then pastRefs[i] else 0
    }

    ghost predicate NonNegative() reads this`pastRefs, this`currentRefs, this`totalPathCount {
      forall c :: Known(c) ==> CountOf(c) >= 0
    }

    /** Every counter is at least what the given nodes contribute to it. */
    ghost predicate Covers(n: Node) reads this`pastRefs, this`currentRefs, this`totalPathCount {
      forall c :: Known(c) ==> CountOf(c) >= Tally(n, c)
    }

    ghost predicate CoversAll(ns: seq<Node>) reads this`pastRefs, this`currentRefs, this`totalPathCount {
      forall c :: Known(c) ==> CountOf(c) >= TallyAll(ns, c)
    }

    method Increment()
      modifies this`currentRefs
      ensures forall c :: Known(c) ==> CountOf(c) == old(CountOf(c)) + One(Current, c)
    {
      currentRefs := currentRefs + 1;
    }

    method Decrement(b: BackupRef)
      requires ValidRef(b, |pastRefs|)
      modifies this`currentRefs, this`pastRefs, this`underflowed
      ensures |pastRefs| == old(|pastRefs|)
      ensures forall c :: Known(c) ==> CountOf(c) == old(CountOf(c)) - One(b, c)
      ensures underflowed == (old(underflowed) || old(CountOf(Refs(b))) <= 0)
    {
      underflowed := underflowed || CountOf(Refs(b)) <= 0;
      match b
      case Current => currentRefs := currentRefs - 1;
      case Past(i) => pastRefs := pastRefs[i := pastRefs[i] - 1];
    }

    method DecrementRefCounts(h: seq<Point>)
      requires forall i :: 0 <= i < |h| ==> ValidRef(h[i].backup, |pastRefs|)
      modifies this`currentRefs, this`pastRefs, this`underflowed
      ensures |pastRefs| == old(|pastRefs|)
      ensures forall c :: Known(c) ==> CountOf(c) == old(CountOf(c)) + DecrementDelta(h, c)
      ensures NonNegative() ==> underflowed == old(underflowed)
    {
      var i := 0;
      assert h[0..] == h;
      while i < |h|
        invariant 0 <= i <= |h| && |pastRefs| == old(|pastRefs|)
        invariant forall c :: Known(c) ==> CountOf(c) + DecrementDelta(h[i..], c) == old(CountOf(c)) + DecrementDelta(h, c)
        invariant NonNegative() ==> underflowed == old(underflowed)
      {
        assert h[i..][0] == h[i] && h[i..][1..] == h[i + 1..];
        Decrement(h[i].backup);
        i := i + 1;
      }
    }

    method PrepareNodeForWiping(n: Node) returns (r: Node)
      requires Good(n, |pastRefs|)
      modifies this`currentRefs, this`pastRefs, this`totalPathCount, this`underflowed
      ensures r == PrepareWipe(n) && Good(r, |pastRefs|) && |pastRefs| == old(|pastRefs|)
      ensures forall c :: Known(c) ==> CountOf(c) == old(CountOf(c)) + WipeDelta(n, c)
      ensures NonNegative() ==> underflowed == old(underflowed)
    {
      r := n;
      if IsKind(n.hint, NotPartOfRepository) { return; }
      r := r.(hint := SetKind(n.hint, NotPartOfRepository));
      underflowed := underflowed || totalPathCount <= 0;
      totalPathCount := totalPathCount - 1;
      DecrementRefCounts(n.history);
      assert Known(Total) && CountOf(Total) == totalPathCount;
    }

    method WipeRecursively(n: Node) returns (r: Node)
      requires Good(n, |pastRefs|)
      modifies this`currentRefs, this`pastRefs, this`totalPathCount, this`underflowed
      ensures r == WipeRec(n) && Good(r, |pastRefs|) && |pastRefs| == old(|pastRefs|)
      ensures forall c :: Known(c) ==> CountOf(c) == old(CountOf(c)) + WipeRecDelta(n, c)
      ensures NonNegative() ==> underflowed == old(underflowed)
      decreases n
    {
      r := PrepareNodeForWiping(n);
      forall c { WipeAllCounts(n.subs, c); }
      var subs := WipeList(n.subs);
      r := r.(subs := subs);
    }

    method WipeList(ns: seq<Node>) returns (rs: seq<Node>)
      requires AllGood(ns, |pastRefs|)
      modifies this`currentRefs, this`pastRefs, this`totalPathCount, this`underflowed
      ensures rs == WipeAll(ns) && AllGood(rs, |pastRefs|) && |pastRefs| == old(|pastRefs|)
      ensures forall c :: Known(c) ==> CountOf(c) == old(CountOf(c)) + WipeAllDelta(ns, c)
      ensures NonNegative() ==> underflowed == old(underflowed)
      decreases ns
    {
      hide Tally, TallyAll, WipeRecDelta, WipeRec, Good;
      rs := [];
      var i := 0;
      assert ns[0..] == ns;
      while i < |ns|
        invariant 0 <= i <= |ns| && |pastRefs| == old(|pastRefs|)
        invariant |rs| == i && AllGood(rs, |pastRefs|)
        invariant forall j :: 0 <= j < i ==> rs[j] == WipeRec(ns[j])
        invariant forall c :: Known(c) ==> CountOf(c) + WipeAllDelta(ns[i..], c) == old(CountOf(c)) + WipeAllDelta(ns, c)
        invariant NonNegative() ==> underflowed == old(underflowed)
      {
        assert ns[i..][0] == ns[i] && ns[i..][1..] == ns[i + 1..];
        forall c { WipeRecCounts(ns[i], c); }
        var r := WipeRecursively(ns[i]);
        rs := rs + [r];
        i := i + 1;
      }
    }

    method MarkAsRemovedRecursively(n: Node, extend: bool) returns (r: Node)
      requires Good(n, |pastRefs|)
      modifies this`currentRefs
      ensures r == MarkRemovedRec(n, extend) && Good(r, |pastRefs|)
      ensures forall c :: Known(c) ==> CountOf(c) == old(CountOf(c)) + MarkRemovedDelta(n, extend, c)
      decreases n
    {
      r := n;
      if IsKind(n.hint, NotPartOfRepository) { return; }
      var below := extend;
      if n.history[0].state.NonExisting? {
        r := r.(hint := SetKind(n.hint, Unchanged));
      } else {
        r := r.(hint := SetKind(n.hint, Removed));
        below := below && n.policy.Track?;
        if below {
          Increment();
          r := r.(history := [Point(Current, NonExisting)] + n.history);
        }
      }
      var subs := MarkListAsRemoved(n.subs, below);
      r := r.(subs := subs);
    }

    method MarkListAsRemoved(ns: seq<Node>, extend: bool) returns (rs: seq<Node>)
      requires AllGood(ns, |pastRefs|)
      modifies this`currentRefs
      ensures rs == MarkRemovedAll(ns, extend) && AllGood(rs, |pastRefs|)
      ensures forall c :: Known(c) ==> CountOf(c) == old(CountOf(c)) + MarkRemovedAllDelta(ns, extend, c)
      decreases ns
    {
      rs := [];
      var i := 0;
      assert ns[0..] == ns;
      while i < |ns|
        invariant 0 <= i <= |ns|
        invariant |rs| == i && AllGood(rs, |pastRefs|)
        invariant forall j :: 0 <= j < i ==> rs[j] == MarkRemovedRec(ns[j], extend)
        invariant forall c :: Known(c) ==>
          CountOf(c) + MarkRemovedAllDelta(ns[i..], extend, c) == old(CountOf(c)) + MarkRemovedAllDelta(ns, extend, c)
      {
        assert ns[i..][0] == ns[i] && ns[i..][1..] == ns[i + 1..];
        var r := MarkAsRemovedRecursively(ns[i], extend);
        rs := rs + [r];
        i := i + 1;
      }
    }

    /** The history part of handlePolicyChanges(): pop a removed point, drop all but the newest. */
    method TruncateHistory(h: seq<Point>) returns (r: seq<Point>, lost: bool)
      requires GoodHistory(Track, h, |pastRefs|)
      modifies this`currentRefs, this`pastRefs, this`underflowed
      ensures |pastRefs| == old(|pastRefs|)
      ensures r == PopRemoved(h)[..1] && lost == (|PopRemoved(h)| > 1)
      ensures forall c :: Known(c) ==> CountOf(c) == old(CountOf(c)) + TruncateDelta(h, c)
      ensures NonNegative() ==> underflowed == old(underflowed)
    {
      r, lost := h, false;
      if r[0].state.NonExisting? {
        Decrement(r[0].backup);
        r := r[1..];
      }
      if |r| > 1 {
        DecrementRefCounts(r[1..]);
        r, lost := r[..1], true;
      }
    }

    /** handlePolicyChanges(). Both dereferences after the pop are covered by the precondition. */
    method ChangePolicy(n: Node, policy: Policy) returns (r: Node)
      requires Good(n, |pastRefs|)
      modifies this`currentRefs, this`pastRefs, this`totalPathCount, this`underflowed
      ensures r == HandlePolicyChanges(n, policy) && Good(r, |pastRefs|) && |pastRefs| == old(|pastRefs|)
      ensures r.policy == policy
      ensures forall c :: Known(c) ==> CountOf(c) == old(CountOf(c)) + PolicyDelta(n, policy, c)
      ensures NonNegative() ==> underflowed == old(underflowed)
    {
      hide Tally, TallyAll, WipeAllDelta, WipeAll, TruncateDelta, DecrementDelta;
      r := n;
      if n.policy == policy { return; }
      r := r.(hint := n.hint.(policyChanged := true));
      if n.policy.Track? {
        var h, lost := TruncateHistory(n.history);
        r := r.(history := h);
        if lost { r := r.(hint := r.hint.(losesHistory := true)); }
        assert h == PopRemoved(n.history)[..1] && HeadState(r) == PopRemoved(n.history)[0].state;
        if !r.history[0].state.Directory? {
          forall c { WipeAllCounts(r.subs, c); }
          var subs := WipeList(r.subs);
          r := r.(subs := subs);
        }
        PolicyDeltaParts(n, policy);
      }
      r := r.(policy := policy);
    }

    method RemovePath(n: Node, policy: Policy) returns (r: Node)
      requires Good(n, |pastRefs|)
      modifies this`currentRefs, this`pastRefs, this`totalPathCount, this`underflowed
      ensures r == HandleRemovedPath(n, policy) && Good(r, |pastRefs|) && |pastRefs| == old(|pastRefs|)
      ensures forall c :: Known(c) ==> CountOf(c) == old(CountOf(c)) + RemovedPathDelta(n, policy, c)
      ensures !Wiped(n) && old(Covers(n)) ==> underflowed == old(underflowed)
    {
      r := ChangePolicy(n, policy);
      WipeSpends(r);
      if !Wiped(n) { PolicySpends(n, policy); }
      if policy == Mirror {
        r := WipeRecursively(r);
      } else if policy == NoPolicy && (r.subs == [] || !r.history[0].state.Directory?) {
        r := PrepareNodeForWiping(r);
      } else {
        r := MarkAsRemovedRecursively(r, true);
      }
    }

    /** reassignPointToCurrent() */
    method Reassign(p: Point) returns (r: Point)
      requires ValidRef(p.backup, |pastRefs|)
      modifies this`currentRefs, this`pastRefs, this`underflowed
      ensures r == p.(backup := Current) && |pastRefs| == old(|pastRefs|)
      ensures forall c :: Known(c) ==> CountOf(c) == old(CountOf(c)) + One(Current, c) - One(p.backup, c)
      ensures old(CountOf(Refs(p.backup))) > 0 ==> underflowed == old(underflowed)
    {
      Decrement(p.backup);
      Increment();
      r := p.(backup := Current);
    }

    /** Compares the newest point with what was found, and gives it to the current backup if needed. */
    method UpdateNewest(n: Node, f: Found) returns (r: Node)
      requires Good(n, |pastRefs|) && n.history != [] && n.policy == f.policy && !f.policy.Track? && !f.entry.Other?
      modifies this`currentRefs, this`pastRefs, this`underflowed
      ensures var (h, s) := HandleNodeChanges(env, n.hint, n.history[0].state, f);
        var renewed := h.core != NoFlags || f.policy.NoPolicy?;
        && r == n.(hint := h, history := [Point(if renewed then Current else n.history[0].backup, s)] + n.history[1..])
        && forall c :: Known(c) ==> CountOf(c) == old(CountOf(c)) + if renewed then One(Current, c) - One(n.history[0].backup, c) else 0
      ensures Good(r, |pastRefs|) && |pastRefs| == old(|pastRefs|)
      ensures old(CountOf(Refs(n.history[0].backup))) > 0 ==> underflowed == old(underflowed)
    {
      hide HandleNodeChanges;
      var h, s := ChangeNode(env, n.hint, n.history[0].state, f);
      var p := n.history[0].(state := s);
      if h.core != NoFlags || f.policy == NoPolicy { p := Reassign(p); }
      r := n.(hint := h, history := [p] + n.history[1..]);
    }

    /** Compares the newest point with what was found, and adds a point of the current backup if needed. */
    method ExtendHistory(n: Node, f: Found) returns (r: Node)
      requires Good(n, |pastRefs|) && n.history != [] && n.policy == f.policy && f.policy.Track? && !f.entry.Other?
      modifies this`currentRefs
      ensures r == if n.history[0].state.NonExisting? then
          n.(hint := SetKind(n.hint, Added), history := [Point(Current, StateOf(f.entry))] + n.history)
        else
          var (h, s) := HandleNodeChanges(env, n.hint, n.history[0].state, f);
          n.(hint := h, history := (if h.core != NoFlags then [Point(Current, s)] else []) + n.history)
      ensures Good(r, |pastRefs|)
      ensures forall c :: Known(c) ==> CountOf(c) == old(CountOf(c)) + if |r.history| > |n.history| then One(Current, c) else 0
    {
      hide HandleNodeChanges;
      if n.history[0].state.NonExisting? {
        Increment();
        r := n.(hint := SetKind(n.hint, Added), history := [Point(Current, StateOf(f.entry))] + n.history);
      } else {
        var h, s := ChangeNode(env, n.hint, n.history[0].state, f);
        r := n.(hint := h);
        if h.core != NoFlags {
          Increment();
          r := r.(history := [Point(Current, s)] + n.history);
        }
      }
    }

    method FoundKnown(n: Node, f: Found) returns (r: Node)
      requires Good(n, |pastRefs|) && !f.entry.Other?
      modifies this`currentRefs, this`pastRefs, this`totalPathCount, this`underflowed
      ensures r == HandleFoundNode(env, n, f) && Good(r, |pastRefs|) && |pastRefs| == old(|pastRefs|)
      ensures forall c :: Known(c) ==> CountOf(c) == old(CountOf(c)) + FoundDelta(env, n, f, c)
      ensures !Wiped(n) && old(Covers(n)) ==> underflowed == old(underflowed)
    {
      hide HandleNodeChanges, HandlePolicyChanges, PolicyDelta, Tally, Weight, Good, Wiped, SetKind, StateOf;
      r := ChangePolicy(n, f.policy);
      GoodHasHead(r, |pastRefs|);
      if !Wiped(n) { HeadSpends(n, f.policy, r); }
      if f.policy != Track {
        r := UpdateNewest(r, f);
      } else {
        r := ExtendHistory(r, f);
      }
    }

    method MatchSubnodes(path: Bytes, parent: Option<SearchNode>) returns (r: Option<SearchNode>)
      ensures r == MatchesSearchSubnodes(env, path, parent)
    {
      if parent.None? { return None; }
      var head, tail := SplitPath(path);
      var subnodes := parent.value.subnodes;
      var i := 0;
      assert subnodes[0..] == subnodes;
      while i < |subnodes|
        invariant 0 <= i <= |subnodes|
        invariant FirstMatch(env, subnodes, tail) == FirstMatch(env, subnodes[i..], tail)
      {
        assert subnodes[i..][0] == subnodes[i] && subnodes[i..][1..] == subnodes[i + 1..];
        if PatternMatches(env, subnodes[i].pattern, tail) { return Some(subnodes[i]); }
        i := i + 1;
      }
      return None;
    }

    method MatchIgnoreList(path: Bytes) returns (r: bool)
      ensures r == Ignored(env, path)
    {
      var i := 0;
      while i < |env.ignore|
        invariant 0 <= i <= |env.ignore|
        invariant forall j :: 0 <= j < i ==> !env.matches(env.ignore[j], path)
      {
        if env.matches(env.ignore[i], path) { return true; }
        i := i + 1;
      }
      return false;
    }

    /** handleNotFoundSubnodes() */
    method RemoveNotFound(ns: seq<Node>, parent: Option<SearchNode>, parentPolicy: Policy) returns (rs: seq<Node>)
      requires AllGood(ns, |pastRefs|)
      modifies this`currentRefs, this`pastRefs, this`totalPathCount, this`underflowed
      ensures rs == HandleNotFoundAll(env, ns, parent, parentPolicy)
      ensures AllGood(rs, |pastRefs|) && |pastRefs| == old(|pastRefs|)
      ensures forall c :: Known(c) ==> CountOf(c) == old(CountOf(c)) + NotFoundAllDelta(env, ns, parent, parentPolicy, c)
      ensures old(CoversAll(ns)) ==> underflowed == old(underflowed)
    {
      hide HandleNotFound, NotFoundDelta, Good, Tally, TallyAll;
      ghost var all := HandleNotFoundAll(env, ns, parent, parentPolicy);
      rs := [];
      var i := 0;
      assert ns[0..] == ns;
      while i < |ns|
        invariant 0 <= i <= |ns| && |pastRefs| == old(|pastRefs|)
        invariant rs == all[..i] && AllGood(rs, |pastRefs|)
        invariant forall c :: Known(c) ==>
          CountOf(c) + NotFoundAllDelta(env, ns[i..], parent, parentPolicy, c)
          == old(CountOf(c)) + NotFoundAllDelta(env, ns, parent, parentPolicy, c)
        invariant old(CoversAll(ns)) ==> CoversAll(ns[i..]) && underflowed == old(underflowed)
      {
        NotFoundStep(env, ns, i, parent, parentPolicy);
        NotFoundSpends(env, ns, i, parent, parentPolicy);
        var r := RemoveIfNotFound(ns[i], parent, parentPolicy);
        rs := rs + [r];
        i := i + 1;
      }
    }

    method RemoveIfNotFound(n: Node, parent: Option<SearchNode>, parentPolicy: Policy) returns (r: Node)
      requires Good(n, |pastRefs|)
      modifies this`currentRefs, this`pastRefs, this`totalPathCount, this`underflowed
      ensures r == HandleNotFound(env, n, parent, parentPolicy) && Good(r, |pastRefs|) && |pastRefs| == old(|pastRefs|)
      ensures forall c :: Known(c) ==> CountOf(c) == old(CountOf(c)) + NotFoundDelta(env, n, parent, parentPolicy, c)
      ensures old(Covers(n)) ==> underflowed == old(underflowed)
    {
      hide Good, GoodHistory, Tally, HandleRemovedPath, RemovedPathDelta, WipeRec, WipeRecDelta, WipeDelta, PrepareWipe;
      r := n;
      if n.hint != NoHint { return; }
      WipeSpends(n);
      var m := MatchSubnodes(n.path, parent);
      if m.Some? {
        r := RemovePath(n, m.value.policy);
      } else {
        var ignored := MatchIgnoreList(n.path);
        if parentPolicy == NoPolicy || ignored {
          r := WipeRecursively(n);
        } else {
          r := RemovePath(n, parentPolicy);
        }
      }
    }

    method Settle(n: Node, f: Found) returns (rs: seq<Node>)
      requires Good(n, |pastRefs|)
      modifies this`currentRefs, this`pastRefs, this`totalPathCount, this`underflowed
      ensures rs == SettleSubnodes(env, n, f) && AllGood(rs, |pastRefs|) && |pastRefs| == old(|pastRefs|)
      ensures forall c :: Known(c) ==> CountOf(c) == old(CountOf(c)) + SettleDelta(env, n, f, c)
      ensures old(CoversAll(n.subs)) ==> underflowed == old(underflowed)
    {
      if IsKind(n.hint, DirectoryToRegular) || IsKind(n.hint, DirectoryToSymlink) {
        if f.policy == NoPolicy || f.policy == Track {
          rs := MarkListAsRemoved(n.subs, f.policy == Track);
        } else {
          forall c { WipeAllCounts(n.subs, c); }
          rs := WipeList(n.subs);
        }
      } else if f.policy == Track && n.history[0].state.RegularFile? {
        rs := MarkListAsRemoved(n.subs, false);
      } else {
        rs := RemoveNotFound(n.subs, f.node, f.policy);
      }
    }

    /** The part of initiateMetadataRecursively() after the recursion into the directory. */
    method Complete(n: Node, f: Found) returns (r: Node)
      requires Good(n, |pastRefs|)
      modifies this`currentRefs, this`pastRefs, this`totalPathCount, this`underflowed
      ensures r == CompleteNode(env, n, f) && Good(r, |pastRefs|) && |pastRefs| == old(|pastRefs|)
      ensures forall c :: Known(c) ==> CountOf(c) == old(CountOf(c)) + CompleteDelta(env, n, f, c)
      ensures old(Covers(n)) ==> underflowed == old(underflowed)
    {
      SettleSpends(env, n, f);
      var subs := Settle(n, f);
      r := n.(subs := subs);
      if f.policy == NoPolicy {
        var hasNeededSubnode := false;
        var i := 0;
        while i < |subs| && !hasNeededSubnode
          invariant 0 <= i <= |subs|
          invariant !hasNeededSubnode ==> forall j :: 0 <= j < i ==> Wiped(subs[j])
          invariant hasNeededSubnode ==> !AllWiped(subs)
          decreases |subs| - i, !hasNeededSubnode
        {
          if !IsKind(subs[i].hint, NotPartOfRepository) { hasNeededSubnode := true; } else { i := i + 1; }
        }
        if !hasNeededSubnode { r := PrepareNodeForWiping(r); }
      }
      if r.hint == NoHint { r := r.(hint := SetKind(r.hint, Unchanged)); }
    }

    /** Looks the found path up; a new node is counted, a known one compared. */
    method Reach(list: seq<Node>, f: Found) returns (i: nat, n: Node)
      requires AllGood(list, |pastRefs|) && !f.entry.Other?
      modifies this`currentRefs, this`pastRefs, this`totalPathCount, this`underflowed
      ensures i == IndexOf(list, f.path)
      ensures n == ReachedNode(env, list, f) && Good(n, |pastRefs|) && |pastRefs| == old(|pastRefs|)
      ensures forall c :: Known(c) ==> CountOf(c) == old(CountOf(c)) + ReachedDelta(env, list, f, c)
      ensures old(CoversAll(list)) && (i < |list| ==> !Wiped(list[i])) ==> underflowed == old(underflowed)
    {
      i := 0;
      while i < |list| && list[i].path != f.path
        invariant 0 <= i <= |list|
        invariant forall j :: 0 <= j < i ==> list[j].path != f.path
      {
        i := i + 1;
      }
      IndexUnique(list, f.path, i);
      if i == |list| {
        n := NewNode(f);
        totalPathCount := totalPathCount + 1;
        Increment();
      } else {
        forall c { TallySplit(list, i, c); }
        n := FoundKnown(list[i], f);
      }
    }

    /** initiateMetadataRecursively(): consumes one result, and everything found inside it if it is
        a directory. The ghost arguments are the results that are still to come for this list. */
    method InitiateMetadata(list: seq<Node>, ghost fs: seq<Found>, ghost rest: seq<Event>) returns (last: Event, r: seq<Node>)
      requires AllGood(list, |pastRefs|)
      requires position < |events|
      requires rest != [] && !rest[0].Hit? && events[position..] == FlattenAll(fs) + rest
      modifies this`currentRefs, this`pastRefs, this`totalPathCount, this`underflowed, this`position
      ensures AllGood(r, |pastRefs|) && |pastRefs| == old(|pastRefs|)
      ensures old(position) < position <= |events|
      ensures fs == [] ==>
        && last == rest[0] && r == list && events[position..] == rest[1..]
        && (forall c :: Known(c) ==> CountOf(c) == old(CountOf(c))) && underflowed == old(underflowed)
      ensures fs != [] ==>
        && last.Hit? && r == MergeOne(env, list, fs[0]) && position < |events|
        && events[position..] == FlattenAll(fs[1..]) + rest
        && (forall c :: Known(c) ==> CountOf(c) == old(CountOf(c)) + MergeOneDelta(env, list, fs[0], c))
      ensures fs != [] && SafeOne(env, list, fs[0]) && old(CoversAll(list)) ==> underflowed == old(underflowed)
      decreases |events| - position, 0
    {
      hide CompleteNode, CompleteDelta, ReachedNode, ReachedDelta, MergeOne, MergeOneDelta, GoodHistory, Tally, TallyAll, SafeOne, SafeAll, MergeAll, MergeAllDelta, IndexOf, Wiped, Flatten;
      last := events[position];
      assert events[position..][0] == last && events[position..][1..] == events[position + 1..];
      position := position + 1;
      r := list;
      FirstEvent(fs, rest);
      if !last.Hit? { return; }
      ghost var f := fs[0];
      ghost var next := FlattenAll(fs[1..]) + rest;
      RestOfEvents(fs, rest);
      assert |next| > 0;
      OtherIsSkipped(env, list, f);
      if last.result.entry.Other? { return; }
      r := MergeFound(list, last.result, f, next);
    }

    /** Merges one result and everything found inside it, whose events are still to come. */
    method MergeFound(list: seq<Node>, e: Found, ghost f: Found, ghost next: seq<Event>) returns (r: seq<Node>)
      requires AllGood(list, |pastRefs|) && e == f.(children := []) && !f.entry.Other?
      requires position < |events| && next != []
      requires events[position..] == if f.entry.Dir? then FlattenAll(f.children) + [EndOfDirectory] + next else next
      modifies this`currentRefs, this`pastRefs, this`totalPathCount, this`underflowed, this`position
      ensures r == MergeOne(env, list, f) && AllGood(r, |pastRefs|) && |pastRefs| == old(|pastRefs|)
      ensures old(position) <= position < |events| && events[position..] == next
      ensures forall c :: Known(c) ==> CountOf(c) == old(CountOf(c)) + MergeOneDelta(env, list, f, c)
      ensures SafeOne(env, list, f) && old(CoversAll(list)) ==> underflowed == old(underflowed)
      decreases |events| - position, 2
    {
      hide CompleteNode, CompleteDelta, ReachedNode, ReachedDelta, MergeOne, MergeOneDelta, GoodHistory, Tally, TallyAll, SafeOne, SafeAll, MergeAll, MergeAllDelta, IndexOf, Wiped, Flatten, FlattenAll;
      if SafeOne(env, list, f) { ReachSpends(env, list, f); }
      SameReach(env, list, f);
      var i, n := Reach(list, e);
      if e.entry.Dir? {
        var subs := Traverse(n.subs, f.children, next);
        n := n.(subs := subs);
      }
      n := Complete(n, e);
      r := if i == |list| then [n] + list else list[i := n];
      MergeOneParts(env, list, f);
    }

    /** The loop over the results inside one directory. */
    method Traverse(list: seq<Node>, ghost fs: seq<Found>, ghost next: seq<Event>) returns (r: seq<Node>)
      requires AllGood(list, |pastRefs|)
      requires position < |events| && events[position..] == FlattenAll(fs) + [EndOfDirectory] + next
      modifies this`currentRefs, this`pastRefs, this`totalPathCount, this`underflowed, this`position
      ensures r == MergeAll(env, list, fs) && AllGood(r, |pastRefs|) && |pastRefs| == old(|pastRefs|)
      ensures old(position) < position <= |events| && events[position..] == next
      ensures forall c :: Known(c) ==> CountOf(c) == old(CountOf(c)) + MergeAllDelta(env, list, fs, c)
      ensures SafeAll(env, list, fs) && old(CoversAll(list)) ==> underflowed == old(underflowed)
      decreases |events| - position, 1
    {
      r := list;
      ghost var left := fs;
      var done := false;
      while !done
        invariant AllGood(r, |pastRefs|) && |pastRefs| == old(|pastRefs|)
        invariant old(position) <= position <= |events|
        invariant done ==> left == [] && events[position..] == next && old(position) < position
        invariant !done ==> position < |events| && events[position..] == FlattenAll(left) + ([EndOfDirectory] + next)
        invariant MergeAll(env, r, left) == MergeAll(env, list, fs)
        invariant forall c :: Known(c) ==>
          CountOf(c) + MergeAllDelta(env, r, left, c) == old(CountOf(c)) + MergeAllDelta(env, list, fs, c)
        invariant SafeAll(env, list, fs) && old(CoversAll(list)) ==>
          SafeAll(env, r, left) && CoversAll(r) && underflowed == old(underflowed)
        decreases |events| - position, !done
      {
        if left != [] && SafeAll(env, r, left) { MergeSpends(env, r, left[0]); }
        var last, rs := InitiateMetadata(r, left, [EndOfDirectory] + next);
        r := rs;
        if left != [] { left := left[1..]; }
        done := last == EndOfDirectory;
      }
    }

    /** initiateBackup(). Starting from counters that cover the tree, and as long as no wiped node
        is found, no counter is ever decremented below zero. */
    method InitiateBackup(list: seq<Node>, root: SearchNode, ghost fs: seq<Found>) returns (r: seq<Node>)
      requires AllGood(list, |pastRefs|)
      requires position == 0 && events == FlattenAll(fs) + [EndOfSearch]
      modifies this`currentRefs, this`pastRefs, this`totalPathCount, this`underflowed, this`position
      ensures r == Backup.InitiateBackup(env, list, fs, root)
      ensures position == |events| && |pastRefs| == old(|pastRefs|)
      ensures forall c :: Known(c) ==> CountOf(c) == old(CountOf(c)) + InitiateDelta(env, list, fs, root, c)
      ensures SafeAll(env, list, fs) && old(CoversAll(list)) ==> underflowed == old(underflowed)
    {
      r := list;
      ghost var left := fs;
      var done := false;
      assert events[0..] == events;
      while !done
        invariant AllGood(r, |pastRefs|) && |pastRefs| == old(|pastRefs|)
        invariant 0 <= position <= |events|
        invariant done ==> left == [] && position == |events|
        invariant !done ==> position < |events| && events[position..] == FlattenAll(left) + [EndOfSearch]
        invariant MergeAll(env, r, left) == MergeAll(env, list, fs)
        invariant forall c :: Known(c) ==>
          CountOf(c) + MergeAllDelta(env, r, left, c) == old(CountOf(c)) + MergeAllDelta(env, list, fs, c)
        invariant SafeAll(env, list, fs) && old(CoversAll(list)) ==>
          SafeAll(env, r, left) && CoversAll(r) && underflowed == old(underflowed)
        decreases |events| - position, !done
      {
        if left != [] && SafeAll(env, r, left) { MergeSpends(env, r, left[0]); }
        var last, rs := InitiateMetadata(r, left, [EndOfSearch]);
        r := rs;
        if left != [] { left := left[1..]; }
        done := last == EndOfSearch;
      }
      r := RemoveNotFound(r, Some(root), root.policy);
    }
  }

  lemma {:induction false} FirstEvent(fs: seq<Found>, rest: seq<Event>)
    requires rest != []
    ensures (FlattenAll(fs) + rest)[0] == if fs == [] then rest[0] else Hit(fs[0].(children := []))
    ensures fs == [] ==> FlattenAll(fs) + rest == rest
  {
  }

  lemma {:induction false} NotFoundStep(env: Env, ns: seq<Node>, i: nat, parent: Option<SearchNode>, parentPolicy: Policy)
    requires i < |ns|
    ensures forall c ::
      NotFoundAllDelta(env, ns[i..], parent, parentPolicy, c)
      == NotFoundDelta(env, ns[i], parent, parentPolicy, c) + NotFoundAllDelta(env, ns[i + 1..], parent, parentPolicy, c)
  {
    assert ns[i..][0] == ns[i] && ns[i..][1..] == ns[i + 1..];
  }

  /** What is left of the results after the first hit. */
  lemma {:induction false} RestOfEvents(fs: seq<Found>, rest: seq<Event>)
    requires fs != []
    ensures FlattenAll(fs) != []
    ensures var next := FlattenAll(fs[1..]) + rest;
      (FlattenAll(fs) + rest)[1..] == if fs[0].entry.Dir? then FlattenAll(fs[0].children) + [EndOfDirectory] + next else next
  {
    var inside := FlattenAll(fs[0].children);
    var below := if fs[0].entry.Dir? then inside + [EndOfDirectory] else [];
    var after := FlattenAll(fs[1..]);
    assert Flatten(fs[0]) == [Hit(fs[0].(children := []))] + below;
    var all := FlattenAll(fs);
    assert all == [Hit(fs[0].(children := []))] + below + after;
    assert (all + rest)[1..] == below + (after + rest);
    assert inside + ([EndOfDirectory] + (after + rest)) == inside + [EndOfDirectory] + (after + rest);
  }

  function ReachedNode(env: Env, list: seq<Node>, f: Found): Node {
    if IndexOf(list, f.path) == |list| then NewNode(f) else HandleFoundNode(env, list[IndexOf(list, f.path)], f)
  }

  function ReachedDelta(env: Env, list: seq<Node>, f: Found, c: Counter): int {
    if IndexOf(list, f.path) == |list| then (if c.Total? then 1 else One(Current, c))
    else FoundDelta(env, list[IndexOf(list, f.path)], f, c)
  }

  /** The children of a result do not matter before they are traversed. */
  lemma {:induction false} SameReach(env: Env, list: seq<Node>, f: Found)
    ensures var g := f.(children := []);
      && ReachedNode(env, list, g) == ReachedNode(env, list, f)
      && (forall c :: ReachedDelta(env, list, g, c) == ReachedDelta(env, list, f, c))
      && (forall n :: CompleteNode(env, n, g) == CompleteNode(env, n, f))
      && (forall n, c :: CompleteDelta(env, n, g, c) == CompleteDelta(env, n, f, c))
  {
  }

  lemma {:induction false} OtherIsSkipped(env: Env, list: seq<Node>, f: Found)
    ensures f.entry.Other? ==> MergeOne(env, list, f) == list && forall c :: MergeOneDelta(env, list, f, c) == 0
  {
  }

  lemma {:induction false} MergeOneParts(env: Env, list: seq<Node>, f: Found)
    requires !f.entry.Other?
    ensures var n := ReachedNode(env, list, f);
      var done := CompleteNode(env, MergeInside(env, n, f), f);
      var i := IndexOf(list, f.path);
      && MergeOne(env, list, f) == (if i == |list| then [done] + list else list[i := done])
      && (forall c ::
        MergeOneDelta(env, list, f, c) == ReachedDelta(env, list, f, c) + MergeInsideDelta(env, n, f, c) + CompleteDelta(env, MergeInside(env, n, f), f, c))
  {
  }

  lemma {:induction false} IndexUnique(ns: seq<Node>, path: Bytes, i: nat)
    requires i <= |ns| && (i < |ns| ==> ns[i].path == path)
    requires forall j :: 0 <= j < i ==> ns[j].path != path
    ensures i == IndexOf(ns, path)
  {
  }
}
