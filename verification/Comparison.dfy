/** What the comparison of a recorded state with the file system says: every hint, and the state it leaves,
    by what differs. And which rule of the config a path falls under. */
module Comparison {
  import opened Data
  import opened Str
  import opened Metadata
  import opened Backup
  import opened FixedConfig

  // ----- changes of one path -----

  /** The kind of a change of type. */
  predicate IsTypeChange(s: PathState, e: Entry, k: Kind) {
    || (s.RegularFile? && e.Link? && k.RegularToSymlink?) || (s.RegularFile? && e.Dir? && k.RegularToDirectory?)
    || (s.Symlink? && e.File? && k.SymlinkToRegular?) || (s.Symlink? && e.Dir? && k.SymlinkToDirectory?)
    || (s.Directory? && e.File? && k.DirectoryToRegular?) || (s.Directory? && e.Link? && k.DirectoryToSymlink?)
  }

  /** A path of another type than before: the hint says which change it is, and the state is the new one, but
      stays the old one if the path has no policy. */
  lemma {:induction false} OtherType(env: Env, s: PathState, f: Found)
    requires !s.NonExisting? && !f.entry.Other? && !SameType(s, f.entry)
    ensures var (h, t) := HandleNodeChanges(env, NoHint, s, f);
      && h.core.Exclusive? && IsTypeChange(s, f.entry, h.core.kind)
      && t == if f.policy.NoPolicy? then s else StateOf(f.entry)
  {
  }

  /** The part of a hash that is compared: the content itself, if it has at most twenty bytes. */
  predicate OtherHash(env: Env, i: FileInfo, c: Content) {
    if |c| > 20 then i.hash != env.digest(c) else i.hash[..|c|] != c
  }

  /** A file that is still one: every difference raises its own flag, and no other does. Its content counts as
      changed if it has another size, or another time and another hash. */
  lemma {:induction false} SameFile(env: Env, s: PathState, f: Found)
    requires s.RegularFile? && f.entry.File?
    ensures var (h, t) := HandleNodeChanges(env, NoHint, s, f);
      var i, e := s.info, f.entry;
      && h.core.Flags? && t.RegularFile?
      && (h.core.owner <==> s.uid != e.uid || s.gid != e.gid)
      && (h.core.permissions <==> i.mode != e.mode)
      && (h.core.timestamp <==> i.mtime != e.mtime)
      && (h.core.freshHash <==> i.size == |e.content| && i.mtime != e.mtime && |e.content| > 0 && OtherHash(env, i, e.content))
      && (h.core.content <==> i.size != |e.content| || h.core.freshHash)
      && t.uid == e.uid && t.gid == e.gid && t.info.mode == e.mode && t.info.mtime == e.mtime && t.info.size == |e.content|
      && (h.core.freshHash ==> !OtherHash(env, t.info, e.content))
      && (!h.core.freshHash ==> t.info.hash == i.hash && t.info.slot == i.slot)
  {
    hide SetKind;
    var h1 := FlagIf(NoHint, s.uid != f.entry.uid || s.gid != f.entry.gid, OwnerChanged);
    if s.info.size == |f.entry.content| { HashOf(env, s.info, f.entry.content); }
    FileFlagsAre(env, h1, s.info, f.entry);
    var (h, t) := HandleNodeChanges(env, NoHint, s, f);
    if h.core.freshHash { HashStored(env, t.info, f.entry.content); }
  }

  lemma {:induction false} HashOf(env: Env, i: FileInfo, c: Content)
    requires i.size == |c|
    ensures OtherHash(env, i, c) <==> i.hash[..IdentityLength(i.size)] != Identity(env, c)
  {
    assert i.hash[..20] == i.hash;
  }

  lemma {:induction false} HashStored(env: Env, i: FileInfo, c: Content)
    requires exists h: Hash :: i.hash == StoreIdentity(h, Identity(env, c))
    ensures !OtherHash(env, i, c)
  {
    var h: Hash :| i.hash == StoreIdentity(h, Identity(env, c));
    if |c| <= 20 { assert (c + h[|c|..])[..|c|] == c; } else { assert env.digest(c) + h[20..] == env.digest(c); }
  }

  lemma {:induction false} FileFlagsAre(env: Env, h: Hint, i: FileInfo, e: Entry)
    requires e.File? && h.core.Flags? && !h.core.permissions && !h.core.timestamp && !h.core.content && !h.core.freshHash
    ensures var (g, j) := ApplyFileChanges(env, h, i, e);
      && g.core.Flags? && g.core.owner == h.core.owner
      && (g.core.permissions <==> i.mode != e.mode) && (g.core.timestamp <==> i.mtime != e.mtime)
      && (g.core.freshHash <==> i.size == |e.content| && i.mtime != e.mtime && |e.content| > 0
                                && i.hash[..IdentityLength(i.size)] != Identity(env, e.content))
      && (g.core.content <==> i.size != |e.content| || g.core.freshHash)
      && j.mode == e.mode && j.mtime == e.mtime && j.size == |e.content|
      && (g.core.freshHash ==> j.hash == StoreIdentity(i.hash, Identity(env, e.content)))
      && (!g.core.freshHash ==> j.hash == i.hash && j.slot == i.slot)
  {
    hide Identity;
  }

  /** The same for links and directories. */
  lemma {:induction false} SameOther(env: Env, s: PathState, f: Found)
    requires (s.Symlink? && f.entry.Link?) || (s.Directory? && f.entry.Dir?)
    ensures var (h, t) := HandleNodeChanges(env, NoHint, s, f);
      var e := f.entry;
      && t == StateOf(e) && h.core.Flags? && !h.core.freshHash
      && (h.core.owner <==> s.uid != e.uid || s.gid != e.gid)
      && (h.core.content <==> s.Symlink? && s.target != e.target)
      && (h.core.permissions <==> s.Directory? && s.mode != e.mode)
      && (h.core.timestamp <==> s.Directory? && s.mtime != e.mtime)
  {
  }

  // ----- rules -----

  predicate Fits(env: Env, p: Pattern, name: Bytes) {
    (p.Literal? && p.name == name) || (p.Regex? && env.matches(p.expression, name))
  }

  lemma {:induction false} FirstFits(env: Env, nodes: seq<SearchNode>, name: Bytes) returns (i: nat)
    ensures i <= |nodes| && (forall j :: 0 <= j < i ==> !Fits(env, nodes[j].pattern, name))
    ensures if i < |nodes| then Fits(env, nodes[i].pattern, name) && FirstMatch(env, nodes, name) == Some(nodes[i]) else FirstMatch(env, nodes, name) == None
  {
    if nodes == [] || Fits(env, nodes[0].pattern, name) {
      i := 0;
    } else {
      var j := FirstFits(env, nodes[1..], name);
      i := j + 1;
      assert forall k :: 1 <= k < i ==> nodes[k] == nodes[1..][k - 1];
    }
  }

  /** The rule of a path in a directory: the first subnode whose name or expression fits; otherwise that of the
      directory, unless it has no policy or an ignore expression matches the whole path. */
  lemma {:induction false} RuleMeans(env: Env, parent: Rule, path: Bytes) returns (i: nat)
    ensures var nodes := if parent.node.Some? then parent.node.value.subnodes else [];
      var name := Split(path).tail;
      && i <= |nodes| && (forall j :: 0 <= j < i ==> !Fits(env, nodes[j].pattern, name))
      && if i < |nodes| then Fits(env, nodes[i].pattern, name) && RuleFor(env, parent, path) == Some(Rule(Some(nodes[i]), nodes[i].policy))
         else if parent.policy == NoPolicy || exists k :: 0 <= k < |env.ignore| && env.matches(env.ignore[k], path) then RuleFor(env, parent, path) == None
         else RuleFor(env, parent, path) == Some(Rule(None, parent.policy))
  {
    hide Split;
    i := 0;
    if parent.node.Some? { i := FirstFits(env, parent.node.value.subnodes, Split(path).tail); }
  }
}
