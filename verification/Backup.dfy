/** The meaning of one backup pass (src/backup.c, src/backup-helpers.c): for every function that
    rewrites path nodes, the node it leaves behind, and by how much it changes each counter. */
module Backup {
  import opened Data
  import opened Str
  import opened Metadata

  // ----- states and hints of a single node -----

  /** setPathHistoryState(). Hash and slot stay undefined until the backup is finished. */
  function StateOf(e: Entry): PathState {
    match e
    case File(u, g, m, t, c) => RegularFile(u, g, FileInfo(m, t, |c|, Zeros(20), 0))
    case Link(u, g, target) => Symlink(u, g, target)
    case Dir(u, g, m, t) => Directory(u, g, m, t)
    case Other => NonExisting
  }

  predicate SameType(s: PathState, e: Entry) {
    || (s.RegularFile? && e.File?)
    || (s.Symlink? && e.Link?)
    || (s.Directory? && e.Dir?)
  }

  function HandleFiletypeChanges(h: Hint, s: PathState, e: Entry): Hint {
    match (s, e)
    case (RegularFile(_, _, _), Link(_, _, _)) => SetKind(h, RegularToSymlink)
    case (RegularFile(_, _, _), Dir(_, _, _, _)) => SetKind(h, RegularToDirectory)
    case (Symlink(_, _, _), File(_, _, _, _, _)) => SetKind(h, SymlinkToRegular)
    case (Symlink(_, _, _), Dir(_, _, _, _)) => SetKind(h, SymlinkToDirectory)
    case (Directory(_, _, _, _), File(_, _, _, _, _)) => SetKind(h, DirectoryToRegular)
    case (Directory(_, _, _, _), Link(_, _, _)) => SetKind(h, DirectoryToSymlink)
    case _ => h
  }

  function FlagIf(h: Hint, changed: bool, f: Flag): Hint { if changed then SetFlag(h, f) else h }

  /** The bytes that identify a content: the content itself if it fits the hash array. */
  function Identity(env: Env, content: Content): Bytes {
    if |content| > FILE_HASH_SIZE then env.digest(content) else content
  }

  function IdentityLength(size: U64): nat { if size > FILE_HASH_SIZE then FILE_HASH_SIZE else size }

  /** memcpy() of bytes to the start of a hash array. */
  function StoreIdentity(hash: Hash, id: Bytes): Hash
    requires |id| <= 20
  {
    id + hash[|id|..]
  }

  function ApplyFileChanges(env: Env, h: Hint, info: FileInfo, e: Entry): (Hint, FileInfo)
    requires e.File?
  {
    var h1 := FlagIf(h, info.mode != e.mode, PermissionsChanged);
    var h2 := FlagIf(h1, info.mtime != e.mtime, TimestampChanged);
    var meta := info.(mode := e.mode, mtime := e.mtime);
    if info.size != |e.content| then
      (SetFlag(h2, ContentChanged), meta.(size := |e.content|))
    else if Has(h2, TimestampChanged) && info.size > 0 && info.hash[..IdentityLength(info.size)] != Identity(env, e.content) then
      (SetFlag(SetFlag(h2, ContentChanged), FreshHash), meta.(hash := StoreIdentity(info.hash, Identity(env, e.content))))
    else
      (h2, meta)
  }

  /** applyNodeChanges(), for a state of the type that was found. */
  function ApplyNodeChanges(env: Env, h: Hint, s: PathState, e: Entry): (Hint, PathState) {
    if !SameType(s, e) then (h, s)
    else
      var h1 := FlagIf(h, s.uid != e.uid || s.gid != e.gid, OwnerChanged);
      match s
      case RegularFile(_, _, info) =>
        var (h2, info') := ApplyFileChanges(env, h1, info, e);
        (h2, RegularFile(e.uid, e.gid, info'))
      case Symlink(_, _, target) =>
        (FlagIf(h1, target != e.target, ContentChanged), Symlink(e.uid, e.gid, e.target))
      case Directory(_, _, mode, mtime) =>
        (FlagIf(FlagIf(h1, mode != e.mode, PermissionsChanged), mtime != e.mtime, TimestampChanged),
         Directory(e.uid, e.gid, e.mode, e.mtime))
      case NonExisting => (h, s)
  }

  function HandleNodeChanges(env: Env, h: Hint, s: PathState, f: Found): (Hint, PathState) {
    var h1 := HandleFiletypeChanges(h, s, f.entry);
    if h1.core == NoFlags then ApplyNodeChanges(env, h1, s, f.entry)
    else if f.policy != NoPolicy then (h1, StateOf(f.entry))
    else (h1, s)
  }

  // ----- wiping and removing -----

  function PrepareWipe(n: Node): Node {
    if Wiped(n) then n else n.(hint := SetKind(n.hint, NotPartOfRepository))
  }

  function WipeRec(n: Node): Node
    decreases n
  {
    PrepareWipe(n).(subs := seq(|n.subs|, i requires 0 <= i < |n.subs| => WipeRec(n.subs[i])))
  }

  function WipeAll(ns: seq<Node>): (r: seq<Node>)
    ensures |r| == |ns|
  {
    seq(|ns|, i requires 0 <= i < |ns| => WipeRec(ns[i]))
  }

  function HeadState(n: Node): PathState {
    if n.history == [] then NonExisting else n.history[0].state
  }

  function MarkRemovedSelf(n: Node, extend: bool): Node {
    if HeadState(n).NonExisting? then n.(hint := SetKind(n.hint, Unchanged))
    else
      var n1 := n.(hint := SetKind(n.hint, Removed));
      if extend && n.policy.Track? then n1.(history := [Point(Current, NonExisting)] + n.history) else n1
  }

  function ExtendBelow(n: Node, extend: bool): bool {
    extend && (HeadState(n).NonExisting? || n.policy.Track?)
  }

  function MarkRemovedRec(n: Node, extend: bool): Node
    decreases n
  {
    if Wiped(n) then n
    else MarkRemovedSelf(n, extend).(subs :=
      seq(|n.subs|, i requires 0 <= i < |n.subs| => MarkRemovedRec(n.subs[i], ExtendBelow(n, extend))))
  }

  function MarkRemovedAll(ns: seq<Node>, extend: bool): (r: seq<Node>)
    ensures |r| == |ns|
  {
    seq(|ns|, i requires 0 <= i < |ns| => MarkRemovedRec(ns[i], extend))
  }

  /** The history of a tracked node once its policy changes, and whether points get lost. */
  function PopRemoved(h: seq<Point>): seq<Point> {
    if h != [] && h[0].state.NonExisting? then h[1..] else h
  }

  function WipesSubnodes(n: Node, policy: Policy): bool {
    && n.policy != policy
    && n.policy.Track?
    && !HeadState(n.(history := PopRemoved(n.history))).Directory?
  }

  function HandlePolicyChanges(n: Node, policy: Policy): Node {
    if n.policy == policy then n
    else
      var n1 := n.(hint := n.hint.(policyChanged := true), policy := policy);
      if n.policy.Track? then
        var h := PopRemoved(n.history);
        var n2 := if |h| > 1 then n1.(history := h[..1], hint := n1.hint.(losesHistory := true))
                  else n1.(history := h);
        if WipesSubnodes(n, policy) then n2.(subs := WipeAll(n.subs)) else n2
      else n1
  }

  function HandleRemovedPath(n: Node, policy: Policy): Node {
    var n1 := HandlePolicyChanges(n, policy);
    if policy.Mirror? then WipeRec(n1)
    else if policy.NoPolicy? && (n1.subs == [] || !HeadState(n1).Directory?) then PrepareWipe(n1)
    else MarkRemovedRec(n1, true)
  }

  // ----- found paths -----

  function HandleFoundNode(env: Env, n: Node, f: Found): Node {
    var n1 := HandlePolicyChanges(n, f.policy);
    if n1.history == [] then n1
    else if !f.policy.Track? then
      var (h, s) := HandleNodeChanges(env, n1.hint, n1.history[0].state, f);
      var b := if h.core != NoFlags || f.policy.NoPolicy? then Current else n1.history[0].backup;
      n1.(hint := h, history := [Point(b, s)] + n1.history[1..])
    else if n1.history[0].state.NonExisting? then
      n1.(hint := SetKind(n1.hint, Added), history := [Point(Current, StateOf(f.entry))] + n1.history)
    else
      var (h, s) := HandleNodeChanges(env, n1.hint, n1.history[0].state, f);
      if h.core != NoFlags then n1.(hint := h, history := [Point(Current, s)] + n1.history)
      else n1.(hint := h)
  }

  function NewNode(f: Found): Node {
    Node(f.path, SetKind(NoHint, Added), f.policy, [Point(Current, StateOf(f.entry))], [])
  }

  function PatternMatches(env: Env, p: Pattern, name: Bytes): bool {
    match p
    case Literal(n) => n == name
    case Regex(e) => env.matches(e, name)
  }

  function FirstMatch(env: Env, subnodes: seq<SearchNode>, name: Bytes): Option<SearchNode> {
    if subnodes == [] then None
    else if PatternMatches(env, subnodes[0].pattern, name) then Some(subnodes[0])
    else FirstMatch(env, subnodes[1..], name)
  }

  function MatchesSearchSubnodes(env: Env, path: Bytes, parent: Option<SearchNode>): Option<SearchNode> {
    if parent.None? then None else FirstMatch(env, parent.value.subnodes, Split(path).tail)
  }

  predicate Ignored(env: Env, path: Bytes) {
    exists i :: 0 <= i < |env.ignore| && env.matches(env.ignore[i], path)
  }

  /** The policy a path that was not found is handled with, or None if it leaves the backup. */
  function SupposedPolicy(env: Env, path: Bytes, parent: Option<SearchNode>, parentPolicy: Policy): Option<Policy> {
    var m := MatchesSearchSubnodes(env, path, parent);
    if m.Some? then Some(m.value.policy)
    else if parentPolicy.NoPolicy? || Ignored(env, path) then None
    else Some(parentPolicy)
  }

  function HandleNotFound(env: Env, n: Node, parent: Option<SearchNode>, parentPolicy: Policy): Node {
    if n.hint != NoHint then n
    else
      var p := SupposedPolicy(env, n.path, parent, parentPolicy);
      if p.None? then WipeRec(n) else HandleRemovedPath(n, p.value)
  }

  function HandleNotFoundAll(env: Env, ns: seq<Node>, parent: Option<SearchNode>, parentPolicy: Policy): (r: seq<Node>)
    ensures |r| == |ns|
  {
    seq(|ns|, i requires 0 <= i < |ns| => HandleNotFound(env, ns[i], parent, parentPolicy))
  }

  /** The subnodes after a node was found and everything found inside it was handled. */
  function SettleSubnodes(env: Env, n: Node, f: Found): seq<Node> {
    if IsKind(n.hint, DirectoryToRegular) || IsKind(n.hint, DirectoryToSymlink) then
      if f.policy.NoPolicy? || f.policy.Track? then MarkRemovedAll(n.subs, f.policy.Track?) else WipeAll(n.subs)
    else if f.policy.Track? && HeadState(n).RegularFile? then
      MarkRemovedAll(n.subs, false)
    else
      HandleNotFoundAll(env, n.subs, f.node, f.policy)
  }

  predicate AllWiped(ns: seq<Node>) { forall i :: 0 <= i < |ns| ==> Wiped(ns[i]) }

  function CompleteNode(env: Env, n: Node, f: Found): Node {
    var n1 := n.(subs := SettleSubnodes(env, n, f));
    var n2 := if f.policy.NoPolicy? && AllWiped(n1.subs) then PrepareWipe(n1) else n1;
    if n2.hint == NoHint then n2.(hint := SetKind(n2.hint, Unchanged)) else n2
  }

  /** The position of the node with the given path in a sibling list, or its length. */
  function IndexOf(ns: seq<Node>, path: Bytes): (i: nat)
    ensures i <= |ns|
    ensures i < |ns| ==> ns[i].path == path
    ensures forall j :: 0 <= j < i ==> ns[j].path != path
  {
    if ns == [] || ns[0].path == path then 0 else 1 + IndexOf(ns[1..], path)
  }

  /** What one search result, with everything found inside it, does to the list it belongs to. */
  function MergeOne(env: Env, ns: seq<Node>, f: Found): seq<Node>
    decreases f
  {
    if f.entry.Other? then ns
    else
      var i := IndexOf(ns, f.path);
      if i == |ns| then [CompleteNode(env, MergeInside(env, NewNode(f), f), f)] + ns
      else ns[i := CompleteNode(env, MergeInside(env, HandleFoundNode(env, ns[i], f), f), f)]
  }

  function MergeInside(env: Env, n: Node, f: Found): Node
    decreases f, 0
  {
    if f.entry.Dir? then n.(subs := MergeAll(env, n.subs, f.children)) else n
  }

  function MergeAll(env: Env, ns: seq<Node>, fs: seq<Found>): seq<Node>
    decreases fs
  {
    if fs == [] then ns else MergeAll(env, MergeOne(env, ns, fs[0]), fs[1..])
  }

  /** initiateBackup(). */
  function InitiateBackup(env: Env, ns: seq<Node>, fs: seq<Found>, root: SearchNode): seq<Node> {
    HandleNotFoundAll(env, MergeAll(env, ns, fs), Some(root), root.policy)
  }

  // ----- counters -----

  /** The counters of the metadata: total_path_count and the ref_count of each backup. */
  datatype Counter = Total | Refs(backup: BackupRef)

  function CountRef(h: seq<Point>, b: BackupRef): nat {
    if h == [] then 0 else (if h[0].backup == b then 1 else 0) + CountRef(h[1..], b)
  }

  function One(b: BackupRef, c: Counter): int { if c == Refs(b) then 1 else 0 }

  function DecrementDelta(h: seq<Point>, c: Counter): int {
    if c.Total? then 0 else -(CountRef(h, c.backup) as int)
  }

  function WipeDelta(n: Node, c: Counter): int {
    if Wiped(n) then 0 else if c.Total? then -1 else DecrementDelta(n.history, c)
  }

  function WipeRecDelta(n: Node, c: Counter): int
    decreases n
  {
    WipeDelta(n, c) + WipeAllDelta(n.subs, c)
  }

  function WipeAllDelta(ns: seq<Node>, c: Counter): int
    decreases ns
  {
    if ns == [] then 0 else WipeRecDelta(ns[0], c) + WipeAllDelta(ns[1..], c)
  }

  function MarkRemovedDelta(n: Node, extend: bool, c: Counter): int
    decreases n
  {
    if Wiped(n) then 0
    else (if extend && n.policy.Track? && !HeadState(n).NonExisting? then One(Current, c) else 0)
         + MarkRemovedAllDelta(n.subs, ExtendBelow(n, extend), c)
  }

  function MarkRemovedAllDelta(ns: seq<Node>, extend: bool, c: Counter): int
    decreases ns
  {
    if ns == [] then 0 else MarkRemovedDelta(ns[0], extend, c) + MarkRemovedAllDelta(ns[1..], extend, c)
  }

  function PolicyDelta(n: Node, policy: Policy, c: Counter): int {
    if n.policy == policy || !n.policy.Track? then 0
    else
      var h := PopRemoved(n.history);
      (if |h| < |n.history| then -One(n.history[0].backup, c) else 0)
      + (if |h| > 1 then DecrementDelta(h[1..], c) else 0)
      + (if WipesSubnodes(n, policy) then WipeAllDelta(n.subs, c) else 0)
  }

  function RemovedPathDelta(n: Node, policy: Policy, c: Counter): int {
    var n1 := HandlePolicyChanges(n, policy);
    PolicyDelta(n, policy, c) +
    if policy.Mirror? then WipeRecDelta(n1, c)
    else if policy.NoPolicy? && (n1.subs == [] || !HeadState(n1).Directory?) then WipeDelta(n1, c)
    else MarkRemovedDelta(n1, true, c)
  }

  function FoundDelta(env: Env, n: Node, f: Found, c: Counter): int {
    var n1 := HandlePolicyChanges(n, f.policy);
    PolicyDelta(n, f.policy, c) +
    if n1.history == [] then 0
    else if !f.policy.Track? then
      var (h, s) := HandleNodeChanges(env, n1.hint, n1.history[0].state, f);
      if h.core != NoFlags || f.policy.NoPolicy? then One(Current, c) - One(n1.history[0].backup, c) else 0
    else if n1.history[0].state.NonExisting? then One(Current, c)
    else
      var (h, s) := HandleNodeChanges(env, n1.hint, n1.history[0].state, f);
      if h.core != NoFlags then One(Current, c) else 0
  }

  function NotFoundDelta(env: Env, n: Node, parent: Option<SearchNode>, parentPolicy: Policy, c: Counter): int {
    if n.hint != NoHint then 0
    else
      var p := SupposedPolicy(env, n.path, parent, parentPolicy);
      if p.None? then WipeRecDelta(n, c) else RemovedPathDelta(n, p.value, c)
  }

  function NotFoundAllDelta(env: Env, ns: seq<Node>, parent: Option<SearchNode>, parentPolicy: Policy, c: Counter): int {
    if ns == [] then 0
    else NotFoundDelta(env, ns[0], parent, parentPolicy, c) + NotFoundAllDelta(env, ns[1..], parent, parentPolicy, c)
  }

  function SettleDelta(env: Env, n: Node, f: Found, c: Counter): int {
    if IsKind(n.hint, DirectoryToRegular) || IsKind(n.hint, DirectoryToSymlink) then
      if f.policy.NoPolicy? || f.policy.Track? then MarkRemovedAllDelta(n.subs, f.policy.Track?, c) else WipeAllDelta(n.subs, c)
    else if f.policy.Track? && HeadState(n).RegularFile? then
      MarkRemovedAllDelta(n.subs, false, c)
    else
      NotFoundAllDelta(env, n.subs, f.node, f.policy, c)
  }

  function CompleteDelta(env: Env, n: Node, f: Found, c: Counter): int {
    var n1 := n.(subs := SettleSubnodes(env, n, f));
    SettleDelta(env, n, f, c) + if f.policy.NoPolicy? && AllWiped(n1.subs) then WipeDelta(n1, c) else 0
  }

  function MergeOneDelta(env: Env, ns: seq<Node>, f: Found, c: Counter): int
    decreases f
  {
    if f.entry.Other? then 0
    else
      var i := IndexOf(ns, f.path);
      if i == |ns| then
        (if c.Total? then 1 else One(Current, c)) + MergeInsideDelta(env, NewNode(f), f, c)
        + CompleteDelta(env, MergeInside(env, NewNode(f), f), f, c)
      else
        var n := HandleFoundNode(env, ns[i], f);
        FoundDelta(env, ns[i], f, c) + MergeInsideDelta(env, n, f, c) + CompleteDelta(env, MergeInside(env, n, f), f, c)
  }

  function MergeInsideDelta(env: Env, n: Node, f: Found, c: Counter): int
    decreases f, 0
  {
    if f.entry.Dir? then MergeAllDelta(env, n.subs, f.children, c) else 0
  }

  function MergeAllDelta(env: Env, ns: seq<Node>, fs: seq<Found>, c: Counter): int
    decreases fs
  {
    if fs == [] then 0 else MergeOneDelta(env, ns, fs[0], c) + MergeAllDelta(env, MergeOne(env, ns, fs[0]), fs[1..], c)
  }

  function InitiateDelta(env: Env, ns: seq<Node>, fs: seq<Found>, root: SearchNode, c: Counter): int {
    MergeAllDelta(env, ns, fs, c) + NotFoundAllDelta(env, MergeAll(env, ns, fs), Some(root), root.policy, c)
  }

  // ----- recounting -----

  /** What a node itself contributes to a counter. */
  function Weight(n: Node, c: Counter): nat {
    if Wiped(n) then 0 else if c.Total? then 1 else CountRef(n.history, c.backup)
  }

  function Tally(n: Node, c: Counter): nat
    decreases n
  {
    Weight(n, c) + TallyAll(n.subs, c)
  }

  /** The number of live nodes, or of history points of live nodes that refer to a backup. */
  function TallyAll(ns: seq<Node>, c: Counter): nat
    decreases ns
  {
    if ns == [] then 0 else Tally(ns[0], c) + TallyAll(ns[1..], c)
  }
}
