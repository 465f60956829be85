/** Searching the file system (src/search.c): an iterator with an explicit stack of directories, and
    the recursive walk that it unrolls. */
module Search {
  import opened Data
  import opened Str
  import opened Metadata
  import opened Backup
  import opened BackupPass

  /** What lstat(), stat() and readdir() report; no path is longer than the limit. */
  datatype World = World(lstat: Bytes -> Option<Entry>, stat: Bytes -> Option<Entry>, list: Bytes -> seq<Bytes>, limit: nat)

  /** sPathExists() */
  predicate Exists(w: World, path: Bytes) { |path| <= w.limit && w.lstat(path).Some? }

  /** buildSearchResult(): a symlink is followed where the config has something to say about what is
      below it. */
  function Seen(w: World, path: Bytes, node: Option<SearchNode>): (r: Option<Entry>)
    ensures r.Some? ==> |path| <= w.limit
  {
    if |path| > w.limit then None
    else if node.Some? && node.value.subnodes != [] then w.stat(path)
    else w.lstat(path)
  }

  // ----- the recursive walk -----

  function NodeName(p: Pattern): Bytes { match p case Literal(n) => n case Regex(e) => e }

  predicate HasRegex(nodes: seq<SearchNode>) { exists i :: 0 <= i < |nodes| && nodes[i].pattern.Regex? }

  /** Directories whose interesting contents are known by name are not read. */
  predicate IsDirect(node: Option<SearchNode>) { node.Some? && node.value.policy.NoPolicy? && !HasRegex(node.value.subnodes) }

  function Subnodes(node: Option<SearchNode>): seq<SearchNode> { if node.None? then [] else node.value.subnodes }

  function Matching(env: Env, nodes: seq<SearchNode>, name: Bytes): seq<SearchNode> {
    if nodes == [] then []
    else (if PatternMatches(env, nodes[0].pattern, name) then [nodes[0]] else []) + Matching(env, nodes[1..], name)
  }

  function Room(w: World, base: Bytes): nat { if |base| <= w.limit then w.limit - |base| else 0 }

  /** The results inside a directory with the given path. None if the program dies. */
  function Walk(env: Env, w: World, path: Bytes, node: Option<SearchNode>, policy: Policy): Option<seq<Found>>
    decreases Room(w, path), 3
  {
    if IsDirect(node) then WalkNodes(env, w, path, node.value.subnodes)
    else WalkNames(env, w, path, path, w.list(path), Subnodes(node), policy)
  }

  /** The entries of an opened directory, one name after the other. */
  function WalkNames(env: Env, w: World, directory: Bytes, base: Bytes, names: seq<Bytes>, nodes: seq<SearchNode>, policy: Policy): Option<seq<Found>>
    decreases Room(w, base), 2, |names|
  {
    if names == [] then Some([])
    else
      var name := Split(AppendPath(directory, names[0])).tail;
      var path := AppendPath(base, name);
      var m := Matching(env, nodes, name);
      if |m| > 1 then None
      else if m == [] && (policy.NoPolicy? || Ignored(env, path)) then
        WalkNames(env, w, directory, base, names[1..], nodes, policy)
      else
        var f :- Visit(env, w, base, path, if m == [] then None else Some(m[0]), if m == [] then policy else m[0].policy);
        var rest :- WalkNames(env, w, directory, base, names[1..], nodes, policy);
        Some([f] + rest)
  }

  /** The paths that the config names inside a directory, as far as they exist. */
  function WalkNodes(env: Env, w: World, base: Bytes, nodes: seq<SearchNode>): Option<seq<Found>>
    decreases Room(w, base), 2, |nodes|
  {
    if nodes == [] then Some([])
    else
      var path := AppendPath(base, NodeName(nodes[0].pattern));
      if !Exists(w, path) then WalkNodes(env, w, base, nodes[1..])
      else
        var f :- Visit(env, w, base, path, Some(nodes[0]), nodes[0].policy);
        var rest :- WalkNodes(env, w, base, nodes[1..]);
        Some([f] + rest)
  }

  function Visit(env: Env, w: World, base: Bytes, path: Bytes, node: Option<SearchNode>, policy: Policy): Option<Found>
    requires |base| < |path|
    decreases Room(w, base), 1
  {
    var e :- Seen(w, path, node);
    var inside :- if e.Dir? then Walk(env, w, path, node, policy) else Some([]);
    Some(Found(path, e, policy, node, inside))
  }

  /** A whole search. The root directory is opened as "/", but paths in it start with one slash. */
  function SearchAll(env: Env, w: World, root: SearchNode): Option<seq<Found>> {
    if IsDirect(Some(root)) then WalkNodes(env, w, [], root.subnodes)
    else WalkNames(env, w, [SLASH], [], w.list([SLASH]), root.subnodes, root.policy)
  }

  // ----- the iterator's state -----

  /** A directory that is being searched, with the length of its path. */
  datatype Frame =
    | Listing(pathLength: nat, directory: Bytes, names: seq<Bytes>, nodes: seq<SearchNode>, fallback: Policy)
    | Direct(pathLength: nat, nodes: seq<SearchNode>)

  /** What is still to be found in a directory with the given path. */
  function Left(env: Env, w: World, base: Bytes, f: Frame): Option<seq<Found>> {
    match f
    case Listing(_, directory, names, nodes, fallback) => WalkNames(env, w, directory, base, names, nodes, fallback)
    case Direct(_, nodes) => WalkNodes(env, w, base, nodes)
  }

  function EventsOf(fs: Option<seq<Found>>): Option<seq<Event>> { if fs.None? then None else Some(FlattenAll(fs.value)) }

  function Join(a: Option<seq<Event>>, b: Option<seq<Event>>): Option<seq<Event>> {
    if a.None? || b.None? then None else Some(a.value + b.value)
  }

  /** The events that are still to come: the rest of the current directory, its end, and then the rest
      of the directories on the stack. */
  function Ahead(env: Env, w: World, path: Bytes, state: Frame, stack: seq<Frame>): Option<seq<Event>>
    requires Nested(path, state, stack)
    decreases |stack|
  {
    Join(EventsOf(Left(env, w, path[..state.pathLength], state)), AheadAfter(env, w, path, stack))
  }

  function AheadAfter(env: Env, w: World, path: Bytes, stack: seq<Frame>): Option<seq<Event>>
    requires stack != [] ==> Nested(path, stack[|stack| - 1], stack[..|stack| - 1])
    decreases |stack|, 0
  {
    if stack == [] then Some([EndOfSearch])
    else Join(Some([EndOfDirectory]), Ahead(env, w, path, stack[|stack| - 1], stack[..|stack| - 1]))
  }

  /** Every saved length is the length of a prefix of the current path, the innermost the longest. */
  predicate Nested(path: Bytes, state: Frame, stack: seq<Frame>)
    decreases |stack|
  {
    && state.pathLength <= |path|
    && (stack != [] ==>
      stack[|stack| - 1].pathLength <= state.pathLength && Nested(path, stack[|stack| - 1], stack[..|stack| - 1]))
  }

  /** Only the part of the path that belongs to the current directory matters. */
  lemma {:induction false} AheadAgrees(env: Env, w: World, p: Bytes, q: Bytes, state: Frame, stack: seq<Frame>)
    requires Nested(p, state, stack) && state.pathLength <= |q| && q[..state.pathLength] == p[..state.pathLength]
    ensures Nested(q, state, stack) && Ahead(env, w, q, state, stack) == Ahead(env, w, p, state, stack)
    decreases |stack|
  {
    hide Left;
    if stack != [] {
      var top := stack[|stack| - 1];
      assert q[..top.pathLength] == q[..state.pathLength][..top.pathLength] == p[..top.pathLength];
      AheadAgrees(env, w, p, q, top, stack[..|stack| - 1]);
    }
  }

  function NewFrame(w: World, path: Bytes, node: Option<SearchNode>, policy: Policy): Frame {
    if IsDirect(node) then Direct(|path|, node.value.subnodes)
    else Listing(|path|, path, w.list(path), Subnodes(node), policy)
  }

  lemma {:induction false} JoinAssociates(a: Option<seq<Event>>, b: Option<seq<Event>>, c: Option<seq<Event>>)
    ensures Join(Join(a, b), c) == Join(a, Join(b, c))
  {
    if a.Some? && b.Some? && c.Some? { assert a.value + b.value + c.value == a.value + (b.value + c.value); }
  }

  lemma {:induction false} FlattenFirst(f: Found, rest: Option<seq<Found>>)
    ensures EventsOf(if rest.None? then None else Some([f] + rest.value)) == Join(Some(Flatten(f)), EventsOf(rest))
  {
    if rest.Some? { assert ([f] + rest.value)[1..] == rest.value; }
  }

  lemma {:induction false} FlattenParts(f: Found)
    ensures Flatten(f) == [Hit(f.(children := []))] + if f.entry.Dir? then FlattenAll(f.children) + [EndOfDirectory] else []
  {
  }

  // ----- one step -----

  function Prepend(f: Option<Found>, rest: Option<seq<Found>>): Option<seq<Found>> {
    if f.None? || rest.None? then None else Some([f.value] + rest.value)
  }

  function Result(path: Bytes, e: Entry, node: Option<SearchNode>, policy: Policy): Found { Found(path, e, policy, node, []) }

  /** The state after a path was found: inside it, if it is a directory. */
  function NextState(w: World, path: Bytes, e: Entry, node: Option<SearchNode>, policy: Policy, rest: Frame): Frame {
    if e.Dir? then NewFrame(w, path, node, policy) else rest
  }

  function NextStack(e: Entry, rest: Frame, stack: seq<Frame>): seq<Frame> { if e.Dir? then stack + [rest] else stack }

  lemma {:induction false} NestedAgrees(p: Bytes, q: Bytes, state: Frame, stack: seq<Frame>)
    requires Nested(p, state, stack) && state.pathLength <= |q|
    ensures Nested(q, state, stack)
    decreases |stack|
  {
    if stack != [] { NestedAgrees(p, q, stack[|stack| - 1], stack[..|stack| - 1]); }
  }

  lemma {:induction false} AfterAgrees(env: Env, w: World, p: Bytes, q: Bytes, state: Frame, stack: seq<Frame>)
    requires Nested(p, state, stack) && state.pathLength <= |q| && q[..state.pathLength] == p[..state.pathLength]
    ensures Nested(q, state, stack) && AheadAfter(env, w, q, stack) == AheadAfter(env, w, p, stack)
  {
    hide Left;
    NestedAgrees(p, q, state, stack);
    if stack != [] {
      var top := stack[|stack| - 1];
      assert q[..top.pathLength] == q[..state.pathLength][..top.pathLength] == p[..top.pathLength];
      AheadAgrees(env, w, p, q, top, stack[..|stack| - 1]);
    }
  }

  /** A hit comes first; what is inside it and the end of it come before what is left around it. */
  lemma {:induction false} HitComesFirst(env: Env, w: World, oldPath: Bytes, state: Frame, stack: seq<Frame>, rest: Frame, name: Bytes, node: Option<SearchNode>, policy: Policy)
    requires Nested(oldPath, state, stack) && rest.pathLength == state.pathLength
    requires var base := oldPath[..state.pathLength];
      var path := AppendPath(base, name);
      Seen(w, path, node).Some? && Left(env, w, base, state) == Prepend(Visit(env, w, base, path, node, policy), Left(env, w, base, rest))
    ensures var path := AppendPath(oldPath[..state.pathLength], name);
      var e := Seen(w, path, node).value;
      && Nested(path, NextState(w, path, e, node, policy, rest), NextStack(e, rest, stack))
      && Ahead(env, w, oldPath, state, stack)
        == Join(Some([Hit(Result(path, e, node, policy))]), Ahead(env, w, path, NextState(w, path, e, node, policy, rest), NextStack(e, rest, stack)))
  {
    hide FlattenAll, Left, Visit, Walk, Ahead, AheadAfter, Join, EventsOf;
    var base := oldPath[..state.pathLength];
    var path := AppendPath(base, name);
    var e := Seen(w, path, node).value;
    assert path[..state.pathLength] == base;
    RestIsNested(oldPath, path, state, rest, stack);
    AheadIs(env, w, oldPath, path, state, stack);
    AheadIs(env, w, path, path, rest, stack);
    VisitEvents(env, w, base, path, node, policy, Left(env, w, base, rest));
    var hit, left, after := Some([Hit(Result(path, e, node, policy))]), EventsOf(Left(env, w, base, rest)), AheadAfter(env, w, path, stack);
    if e.Dir? {
      AheadInside(env, w, path, node, policy, rest, stack);
      JoinFour(hit, EventsOf(Walk(env, w, path, node, policy)), Some([EndOfDirectory]), left, after);
    } else {
      JoinAssociates(hit, left, after);
    }
  }

  lemma {:induction false} AheadIs(env: Env, w: World, oldPath: Bytes, path: Bytes, state: Frame, stack: seq<Frame>)
    requires Nested(oldPath, state, stack) && state.pathLength <= |path| && path[..state.pathLength] == oldPath[..state.pathLength]
    ensures Nested(path, state, stack)
    ensures Ahead(env, w, oldPath, state, stack)
         == Join(EventsOf(Left(env, w, oldPath[..state.pathLength], state)), AheadAfter(env, w, path, stack))
  {
    hide Left;
    AfterAgrees(env, w, oldPath, path, state, stack);
  }

  lemma {:induction false} AheadInside(env: Env, w: World, path: Bytes, node: Option<SearchNode>, policy: Policy, rest: Frame, stack: seq<Frame>)
    requires Nested(path, rest, stack)
    ensures Nested(path, NewFrame(w, path, node, policy), stack + [rest])
    ensures Ahead(env, w, path, NewFrame(w, path, node, policy), stack + [rest])
         == Join(EventsOf(Walk(env, w, path, node, policy)), Join(Some([EndOfDirectory]), Ahead(env, w, path, rest, stack)))
  {
    hide WalkNames, WalkNodes, FlattenAll;
    assert (stack + [rest])[..|stack|] == stack && (stack + [rest])[|stack|] == rest;
    assert path[..|path|] == path;
  }

  lemma {:induction false} RestIsNested(oldPath: Bytes, path: Bytes, state: Frame, rest: Frame, stack: seq<Frame>)
    requires Nested(oldPath, state, stack) && rest.pathLength == state.pathLength < |path|
    ensures Nested(path, rest, stack)
  {
    NestedAgrees(oldPath, path, state, stack);
  }

  lemma {:induction false} JoinFour(h: Option<seq<Event>>, i: Option<seq<Event>>, d: Option<seq<Event>>, l: Option<seq<Event>>, a: Option<seq<Event>>)
    ensures Join(Join(Join(h, Join(i, d)), l), a) == Join(h, Join(i, Join(d, Join(l, a))))
  {
    JoinAssociates(Join(h, Join(i, d)), l, a);
    JoinAssociates(h, Join(i, d), Join(l, a));
    JoinAssociates(i, d, Join(l, a));
  }

  lemma {:induction false} VisitEvents(env: Env, w: World, base: Bytes, path: Bytes, node: Option<SearchNode>, policy: Policy, rest: Option<seq<Found>>)
    requires |base| < |path| && Seen(w, path, node).Some?
    ensures var e := Seen(w, path, node).value;
      var hit := Some([Hit(Result(path, e, node, policy))]);
      EventsOf(Prepend(Visit(env, w, base, path, node, policy), rest))
      == Join(if e.Dir? then Join(hit, Join(EventsOf(Walk(env, w, path, node, policy)), Some([EndOfDirectory]))) else hit, EventsOf(rest))
  {
    hide FlattenAll, Walk;
    var f := Visit(env, w, base, path, node, policy);
    if f.Some? {
      FlattenFirst(f.value, rest);
      FlattenParts(f.value);
      var hit := Hit(Result(path, Seen(w, path, node).value, node, policy));
      assert Hit(f.value.(children := [])) == hit;
      if f.value.entry.Dir? {
        assert Flatten(f.value) == [hit] + (FlattenAll(f.value.children) + [EndOfDirectory]);
      } else {
        assert Flatten(f.value) == [hit];
      }
    }
  }

  // ----- in place -----

  class SearchIterator {
    const env: Env
    const world: World
    var path: Bytes
    var state: Frame
    var frames: array<Frame>
    var used: nat
    var alive: bool

    function Stack(): seq<Frame>
      requires used <= frames.Length
      reads this, frames
    {
      frames[..used]
    }

    predicate Valid() reads this, frames {
      used <= frames.Length && frames.Length > 0 && Nested(path, state, Stack())
    }

    /** What is still to come, or None if the program is going to die. */
    function Coming(): Option<seq<Event>>
      requires Valid()
      reads this, frames
    {
      Ahead(env, world, path, state, Stack())
    }

    /** searchNew() */
    constructor (env: Env, world: World, root: SearchNode)
      ensures Valid() && alive && fresh(frames)
      ensures this.env == env && this.world == world
      ensures Coming() == Join(EventsOf(SearchAll(env, world, root)), Some([EndOfSearch]))
    {
      this.env, this.world, this.path, this.alive := env, world, [SLASH], true;
      var first := NewFrame(world, [SLASH], Some(root), root.policy);
      var start := match first
        case Direct(_, nodes) => Direct(0, nodes)
        case Listing(_, directory, names, nodes, fallback) => Listing(0, directory, names, nodes, fallback);
      this.state, this.used := start, 0;
      this.frames := new Frame[4](_ => start);
      new;
      assert Stack() == [];
    }

    /** pushCurrentState() */
    method PushCurrentState()
      requires Valid()
      modifies this`frames, this`used, frames
      ensures used == old(used) + 1 <= frames.Length && Stack() == old(Stack()) + [state]
      ensures frames == old(frames) || fresh(frames)
    {
      if used == frames.Length {
        var filler := state;
        var grown := new Frame[2 * frames.Length](_ => filler);
        var i := 0;
        while i < used
          invariant 0 <= i <= used <= frames.Length < grown.Length
          invariant grown[..i] == frames[..i] && frames[..] == old(frames[..])
          invariant fresh(grown) && frames == old(frames) && used == old(used)
        {
          grown[i] := frames[i];
          i := i + 1;
        }
        frames := grown;
      }
      frames[used] := state;
      used := used + 1;
    }

    /** finishNodeStep(): reports the current path, and goes into it if it is a directory. */
    method FinishNodeStep(ghost oldPath: Bytes, ghost was: Frame, ghost name: Bytes, node: Option<SearchNode>, policy: Policy) returns (r: Option<Event>)
      requires used <= frames.Length && frames.Length > 0
      requires Nested(oldPath, was, Stack()) && state.pathLength == was.pathLength && path == AppendPath(oldPath[..was.pathLength], name)
      requires var base := oldPath[..was.pathLength];
        Left(env, world, base, was) == Prepend(Visit(env, world, base, path, node, policy), Left(env, world, base, state))
      modifies this`state, this`frames, this`used, frames
      ensures Valid() && (frames == old(frames) || fresh(frames))
      ensures r.None? ==> old(Ahead(env, world, oldPath, was, Stack())) == None
      ensures r.Some? ==> r.value.Hit? && old(Ahead(env, world, oldPath, was, Stack())) == Join(Some([r.value]), Coming())
    {
      hide Left, Visit, Ahead, Walk, Join, Nested, NewFrame, Result, Seen;
      LongerPath(oldPath, was, Stack(), name);
      var e := Seen(world, path, node);
      RestIsNested(oldPath, path, was, state, Stack());
      if e.None? {
        NothingSeen(env, world, oldPath, was, Stack(), path, node, policy, state);
        return None;
      }
      HitComesFirst(env, world, oldPath, was, Stack(), state, name, node, policy);
      ghost var rest, stack := state, Stack();
      if e.value.Dir? {
        PushCurrentState();
        state := NewFrame(world, path, node, policy);
      }
      assert state == NextState(world, path, e.value, node, policy, rest) && Stack() == NextStack(e.value, rest, stack);
      r := Some(Hit(Result(path, e.value, node, policy)));
    }

    /** finishDirectory() */
    method FinishDirectory() returns (r: Option<Event>)
      requires Valid() && alive && Left(env, world, path[..state.pathLength], state) == Some([])
      modifies this`state, this`used, this`alive
      ensures Valid() && r.Some? && !r.value.Hit? && (alive <==> r.value == EndOfDirectory)
      ensures old(Coming()) == if alive then Join(Some([r.value]), Coming()) else Some([r.value])
    {
      hide Left;
      ghost var stack := Stack();
      DirectoryIsDone(env, world, path, state, stack);
      if used > 0 {
        used := used - 1;
        state := frames[used];
        assert stack[|stack| - 1] == state && stack[..|stack| - 1] == Stack();
        r := Some(EndOfDirectory);
      } else {
        alive := false;
        r := Some(EndOfSearch);
      }
    }

    /** finishSearchStep() */
    method FinishSearchStep() returns (r: Option<Event>)
      requires Valid() && alive && state.Listing?
      modifies this, frames
      ensures Valid() && (frames == old(frames) || fresh(frames))
      ensures Delivers(old(Coming()), r, alive, Coming())
      decreases |state.names|
    {
      hide Visit, Ahead, Walk, WalkNames, Split, FlattenAll, Matching, Nested;
      NestedIsShort(path, state, Stack());
      if state.names == [] {
        NamesDone(env, world, path[..state.pathLength], state);
        r := FinishDirectory();
        return;
      }
      ghost var oldPath, was := path, state;
      var name := Split(AppendPath(state.directory, state.names[0])).tail;
      path := AppendPath(path[..state.pathLength], name);
      assert path[..was.pathLength] == oldPath[..was.pathLength];
      SameStack(oldPath, path, was, Stack());
      var ambiguous, matched := MatchNodes(state.nodes, name);
      NextName(env, world, oldPath[..was.pathLength], was, name);
      if ambiguous {
        AheadOfNothing(env, world, oldPath, was, Stack());
        return None;
      }
      state := Listing(state.pathLength, state.directory, state.names[1..], state.nodes, state.fallback);
      if matched.Some? {
        r := FinishNodeStep(oldPath, was, name, matched, matched.value.policy);
        return;
      }
      var skip := state.fallback.NoPolicy?;
      if !skip { skip := MatchIgnoreList(path); }
      if skip {
        SkippedName(env, world, oldPath, path, was, state, Stack());
        r := FinishSearchStep();
        return;
      }
      r := FinishNodeStep(oldPath, was, name, None, state.fallback);
    }

    /** The only node that matches a name; two of them are an error. */
    method MatchNodes(nodes: seq<SearchNode>, name: Bytes) returns (ambiguous: bool, matched: Option<SearchNode>)
      ensures ambiguous <==> |Matching(env, nodes, name)| > 1
      ensures !ambiguous ==> Matching(env, nodes, name) == if matched.None? then [] else [matched.value]
    {
      hide PatternMatches;
      ambiguous, matched := false, None;
      var i := 0;
      assert nodes[0..] == nodes && [] + Matching(env, nodes, name) == Matching(env, nodes, name);
      while i < |nodes|
        invariant 0 <= i <= |nodes|
        invariant Matching(env, nodes, name) == (if matched.None? then [] else [matched.value]) + Matching(env, nodes[i..], name)
      {
        assert nodes[i..][0] == nodes[i] && nodes[i..][1..] == nodes[i + 1..];
        ghost var rest := Matching(env, nodes[i + 1..], name);
        assert [] + rest == rest;
        if PatternMatches(env, nodes[i].pattern, name) {
          if matched.Some? {
            TwoMatches(env, matched.value, nodes[i], nodes[i + 1..], name);
            return true, matched;
          }
          matched := Some(nodes[i]);
        }
        i := i + 1;
      }
    }

    method MatchIgnoreList(p: Bytes) returns (r: bool)
      ensures r == Ignored(env, p)
    {
      var i := 0;
      while i < |env.ignore|
        invariant 0 <= i <= |env.ignore|
        invariant forall j :: 0 <= j < i ==> !env.matches(env.ignore[j], p)
      {
        if env.matches(env.ignore[i], p) { return true; }
        i := i + 1;
      }
      return false;
    }

    /** finishCurrentNode() */
    method FinishCurrentNode() returns (r: Option<Event>)
      requires Valid() && alive && state.Direct?
      modifies this, frames
      ensures Valid() && (frames == old(frames) || fresh(frames))
      ensures Delivers(old(Coming()), r, alive, Coming())
      decreases |state.nodes|
    {
      hide Visit, Ahead, Walk, FlattenAll;
      if state.nodes == [] {
        r := FinishDirectory();
        return;
      }
      ghost var oldPath, was := path, state;
      var node := state.nodes[0];
      var name := NodeName(node.pattern);
      state := Direct(state.pathLength, state.nodes[1..]);
      path := AppendPath(path[..state.pathLength], name);
      if Exists(world, path) {
        r := FinishNodeStep(oldPath, was, name, Some(node), node.policy);
      } else {
        SkippedName(env, world, oldPath, path, was, state, Stack());
        r := FinishCurrentNode();
      }
    }

    /** searchGetNext() */
    method GetNext() returns (r: Option<Event>)
      requires Valid() && alive
      modifies this, frames
      ensures Valid() && (frames == old(frames) || fresh(frames))
      ensures Delivers(old(Coming()), r, alive, Coming())
    {
      if state.Listing? { r := FinishSearchStep(); } else { r := FinishCurrentNode(); }
    }
  }

  /** One event was handed out: the first of those that were to come. None is die(). */
  predicate Delivers(before: Option<seq<Event>>, r: Option<Event>, alive: bool, after: Option<seq<Event>>) {
    if r.None? then before == None
    else if r.value == EndOfSearch then !alive && before == Some([EndOfSearch])
    else alive && before == Join(Some([r.value]), after)
  }

  lemma {:induction false} LongerPath(oldPath: Bytes, was: Frame, stack: seq<Frame>, name: Bytes)
    requires Nested(oldPath, was, stack)
    ensures was.pathLength <= |oldPath| && was.pathLength < |AppendPath(oldPath[..was.pathLength], name)|
  {
  }

  lemma {:induction false} NothingSeen(env: Env, w: World, oldPath: Bytes, was: Frame, stack: seq<Frame>, path: Bytes, node: Option<SearchNode>, policy: Policy, rest: Frame)
    requires Nested(oldPath, was, stack) && Seen(w, path, node).None? && was.pathLength < |path|
    requires var base := oldPath[..was.pathLength];
      Left(env, w, base, was) == Prepend(Visit(env, w, base, path, node, policy), Left(env, w, base, rest))
    ensures Ahead(env, w, oldPath, was, stack) == None
  {
    hide WalkNames, WalkNodes;
  }

  lemma {:induction false} AheadOfNothing(env: Env, w: World, path: Bytes, state: Frame, stack: seq<Frame>)
    requires Nested(path, state, stack) && Left(env, w, path[..state.pathLength], state) == None
    ensures Ahead(env, w, path, state, stack) == None
  {
    hide WalkNames, WalkNodes;
  }

  lemma {:induction false} SameStack(oldPath: Bytes, path: Bytes, state: Frame, stack: seq<Frame>)
    requires Nested(oldPath, state, stack) && state.pathLength <= |path|
    ensures Nested(path, state, stack)
  {
    NestedAgrees(oldPath, path, state, stack);
  }

  lemma {:induction false} NamesDone(env: Env, w: World, base: Bytes, f: Frame)
    requires f.Listing? && f.names == []
    ensures Left(env, w, base, f) == Some([])
  {
  }

  lemma {:induction false} NestedIsShort(path: Bytes, state: Frame, stack: seq<Frame>)
    requires Nested(path, state, stack)
    ensures state.pathLength <= |path|
  {
  }

  /** What the next name of a listing contributes. */
  lemma {:induction false} NextName(env: Env, w: World, base: Bytes, f: Frame, name: Bytes)
    requires f.Listing? && f.names != [] && name == Split(AppendPath(f.directory, f.names[0])).tail
    ensures var path := AppendPath(base, name);
      var m := Matching(env, f.nodes, name);
      var rest := Left(env, w, base, Listing(f.pathLength, f.directory, f.names[1..], f.nodes, f.fallback));
      Left(env, w, base, f) ==
        if |m| > 1 then None
        else if m == [] && (f.fallback.NoPolicy? || Ignored(env, path)) then rest
        else Prepend(Visit(env, w, base, path, if m == [] then None else Some(m[0]), if m == [] then f.fallback else m[0].policy), rest)
  {
    hide Visit, Split, Matching;
  }

  lemma {:induction false} TwoMatches(env: Env, a: SearchNode, b: SearchNode, rest: seq<SearchNode>, name: Bytes)
    ensures |[a] + ([b] + Matching(env, rest, name))| > 1
  {
  }

  lemma {:induction false} DirectoryIsDone(env: Env, w: World, path: Bytes, state: Frame, stack: seq<Frame>)
    requires Nested(path, state, stack) && Left(env, w, path[..state.pathLength], state) == Some([])
    ensures Ahead(env, w, path, state, stack) == AheadAfter(env, w, path, stack)
  {
    hide Left;
    var after := AheadAfter(env, w, path, stack);
    if after.Some? { assert [] + after.value == after.value; }
  }

  /** A name that yields no result. */
  lemma {:induction false} SkippedName(env: Env, w: World, oldPath: Bytes, path: Bytes, was: Frame, state: Frame, stack: seq<Frame>)
    requires Nested(oldPath, was, stack) && state.pathLength == was.pathLength <= |path| && path[..was.pathLength] == oldPath[..was.pathLength]
    requires Left(env, w, oldPath[..was.pathLength], was) == Left(env, w, oldPath[..was.pathLength], state)
    ensures Nested(path, state, stack) && Ahead(env, w, path, state, stack) == Ahead(env, w, oldPath, was, stack)
  {
    hide Left;
    AfterAgrees(env, w, oldPath, path, was, stack);
  }

  /** A whole search yields exactly the results of the recursive walk, each directory closed once, and
      then the end of the search. */
  method SearchEverything(env: Env, w: World, root: SearchNode) returns (events: seq<Event>)
    requires SearchAll(env, w, root).Some?
    ensures events == FlattenAll(SearchAll(env, w, root).value) + [EndOfSearch]
  {
    hide Ahead, SearchAll, FlattenAll;
    var iterator_state := new SearchIterator(env, w, root);
    ghost var all := FlattenAll(SearchAll(env, w, root).value) + [EndOfSearch];
    events := [];
    assert [] + all == all;
    while iterator_state.alive
      invariant iterator_state.Valid() && fresh(iterator_state) && fresh(iterator_state.frames)
      invariant iterator_state.alive ==> iterator_state.Coming().Some? && all == events + iterator_state.Coming().value
      invariant !iterator_state.alive ==> all == events
      decreases if iterator_state.alive then 1 + |iterator_state.Coming().value| else 0
    {
      ghost var before := iterator_state.Coming().value;
      var r := iterator_state.GetNext();
      assert r.Some?;
      if iterator_state.alive {
        assert before == [r.value] + iterator_state.Coming().value;
        assert events + before == events + [r.value] + iterator_state.Coming().value;
      }
      events := events + [r.value];
    }
  }
}