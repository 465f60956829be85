/** Backups that are all made with the same config: every path has one policy, whatever the search
    finds. Then no policy ever changes, and the conditions of RefCountsExact and Wiping hold. */
module FixedConfig {
  import opened Data
  import opened Str
  import opened Metadata
  import opened Backup
  import opened BackupFrame
  import opened RefCounts
  import opened RefCountsExact
  import opened History
  import opened Wiping

  /** What the config says about one path: the search node that matches it, and its policy. */
  datatype Rule = Rule(node: Option<SearchNode>, policy: Policy)

  /** The rule for a path inside a directory with a given rule, or None if it is not backed up. */
  function RuleFor(env: Env, parent: Rule, path: Bytes): Option<Rule> {
    var m := MatchesSearchSubnodes(env, path, parent.node);
    if m.Some? then Some(Rule(m, m.value.policy))
    else if parent.policy.NoPolicy? || Ignored(env, path) then None
    else Some(Rule(None, parent.policy))
  }

  /** A search result with the node and policy that src/search.c:266-310 gives it. */
  predicate Obeys(env: Env, rule: Rule, f: Found)
    decreases f
  {
    && RuleFor(env, rule, f.path) == Some(Rule(f.node, f.policy))
    && forall i :: 0 <= i < |f.children| ==> Obeys(env, Rule(f.node, f.policy), f.children[i])
  }

  predicate AllObey(env: Env, rule: Rule, fs: seq<Found>) { forall i :: 0 <= i < |fs| ==> Obeys(env, rule, fs[i]) }

  /** A node that carries the policy of its path, as does everything below it. */
  predicate Conforms(env: Env, rule: Rule, n: Node)
    decreases n
  {
    var r := RuleFor(env, rule, n.path);
    r.Some? && n.policy == r.value.policy && forall i :: 0 <= i < |n.subs| ==> Conforms(env, r.value, n.subs[i])
  }

  predicate AllConform(env: Env, rule: Rule, ns: seq<Node>) { forall i :: 0 <= i < |ns| ==> Conforms(env, rule, ns[i]) }

  /** A path that is not found is handled with the same policy with which it is found. */
  lemma {:induction false} SupposedIsRule(env: Env, rule: Rule, n: Node)
    requires Conforms(env, rule, n)
    ensures SupposedPolicy(env, n.path, rule.node, rule.policy) == Some(n.policy)
  {
  }

  /** No result finds a node that a policy change wiped. */
  lemma {:induction false} NothingBlocked(env: Env, rule: Rule, ns: seq<Node>, fs: seq<Found>)
    requires AllConform(env, rule, ns) && AllObey(env, rule, fs)
    ensures UnblockedAll(ns, fs)
    decreases fs
  {
    if fs != [] {
      var f := fs[0];
      if !f.entry.Other? && Lookup(ns, f.path).Some? && f.entry.Dir? {
        NothingBlocked(env, Rule(f.node, f.policy), Lookup(ns, f.path).value.subs, f.children);
      }
      NothingBlocked(env, rule, ns, fs[1..]);
    }
  }

  // ----- a pass changes no policy -----

  lemma {:induction false} WipeConforms(env: Env, rule: Rule, n: Node)
    requires Conforms(env, rule, n)
    ensures Conforms(env, rule, WipeRec(n))
    decreases n
  {
    var r := RuleFor(env, rule, n.path).value;
    forall i | 0 <= i < |n.subs| ensures Conforms(env, r, WipeRec(n.subs[i])) { WipeConforms(env, r, n.subs[i]); }
  }

  lemma {:induction false} MarkConforms(env: Env, rule: Rule, n: Node, extend: bool)
    requires Conforms(env, rule, n)
    ensures Conforms(env, rule, MarkRemovedRec(n, extend))
    decreases n
  {
    var r := RuleFor(env, rule, n.path).value;
    forall i | 0 <= i < |n.subs| ensures Conforms(env, r, MarkRemovedRec(n.subs[i], ExtendBelow(n, extend))) {
      MarkConforms(env, r, n.subs[i], ExtendBelow(n, extend));
    }
  }

  lemma {:induction false} NotFoundConforms(env: Env, rule: Rule, n: Node)
    requires Conforms(env, rule, n)
    ensures Conforms(env, rule, HandleNotFound(env, n, rule.node, rule.policy))
  {
    SupposedIsRule(env, rule, n);
    WipeConforms(env, rule, n);
    MarkConforms(env, rule, n, true);
    assert HandlePolicyChanges(n, n.policy) == n;
  }

  lemma {:induction false} CompleteConforms(env: Env, rule: Rule, n: Node, f: Found)
    requires Conforms(env, rule, n) && n.path == f.path && Obeys(env, rule, f)
    ensures Conforms(env, rule, CompleteNode(env, n, f))
  {
    hide HandleNotFound;
    var r := RuleFor(env, rule, n.path).value;
    forall i | 0 <= i < |n.subs|
      ensures Conforms(env, r, WipeRec(n.subs[i]))
      ensures forall b :: Conforms(env, r, MarkRemovedRec(n.subs[i], b))
      ensures Conforms(env, r, HandleNotFound(env, n.subs[i], r.node, r.policy))
    {
      WipeConforms(env, r, n.subs[i]);
      forall b { MarkConforms(env, r, n.subs[i], b); }
      NotFoundConforms(env, r, n.subs[i]);
    }
    assert AllConform(env, r, SettleSubnodes(env, n, f));
  }

  lemma {:induction false} ReachedConforms(env: Env, rule: Rule, prior: Option<Node>, f: Found)
    requires Obeys(env, rule, f) && (prior.Some? ==> prior.value.path == f.path && Conforms(env, rule, prior.value))
    ensures Conforms(env, rule, Reached(env, prior, f)) && Reached(env, prior, f).path == f.path
  {
    hide HandleNodeChanges;
    if prior.Some? { assert HandlePolicyChanges(prior.value, f.policy) == prior.value; }
  }

  lemma {:induction false} MergeOneConforms(env: Env, rule: Rule, ns: seq<Node>, f: Found)
    requires AllConform(env, rule, ns) && Obeys(env, rule, f)
    ensures AllConform(env, rule, MergeOne(env, ns, f))
    decreases f
  {
    hide HandleFoundNode, CompleteNode;
    if !f.entry.Other? {
      var n := Reached(env, Lookup(ns, f.path), f);
      ReachedConforms(env, rule, Lookup(ns, f.path), f);
      if f.entry.Dir? { MergeAllConforms(env, Rule(f.node, f.policy), n.subs, f.children); }
      CompleteConforms(env, rule, MergeInside(env, n, f), f);
    }
  }

  lemma {:induction false} MergeAllConforms(env: Env, rule: Rule, ns: seq<Node>, fs: seq<Found>)
    requires AllConform(env, rule, ns) && AllObey(env, rule, fs)
    ensures AllConform(env, rule, MergeAll(env, ns, fs))
    decreases fs
  {
    if fs != [] {
      MergeOneConforms(env, rule, ns, fs[0]);
      MergeAllConforms(env, rule, MergeOne(env, ns, fs[0]), fs[1..]);
    }
  }

  function RootRule(root: SearchNode): Rule { Rule(Some(root), root.policy) }

  /** After a pass every node still carries the policy of its path. */
  lemma {:induction false} PassConforms(env: Env, root: SearchNode, ns: seq<Node>, fs: seq<Found>)
    requires AllConform(env, RootRule(root), ns) && AllObey(env, RootRule(root), fs)
    ensures AllConform(env, RootRule(root), InitiateBackup(env, ns, fs, root))
  {
    hide HandleNotFound;
    MergeAllConforms(env, RootRule(root), ns, fs);
    var all := MergeAll(env, ns, fs);
    forall i | 0 <= i < |all| ensures Conforms(env, RootRule(root), HandleNotFound(env, all[i], Some(root), root.policy)) {
      NotFoundConforms(env, RootRule(root), all[i]);
    }
  }

  // ----- paths without a policy are directories -----

  /** A live node without a policy has the state of a directory, as have those below it. */
  ghost predicate Plain(n: Node)
    decreases n
  {
    && (!Wiped(n) && n.policy.NoPolicy? ==> HeadState(n).Directory?)
    && forall i :: 0 <= i < |n.subs| ==> Plain(n.subs[i])
  }

  ghost predicate AllPlain(ns: seq<Node>) { forall i :: 0 <= i < |ns| ==> Plain(ns[i]) }

  /** No directory without a policy is found where the metadata has something else. */
  lemma {:induction false} EverythingTyped(env: Env, rule: Rule, ns: seq<Node>, fs: seq<Found>)
    requires AllConform(env, rule, ns) && AllObey(env, rule, fs)
    requires AllPlain(ns) && forall i :: 0 <= i < |ns| ==> Fresh(ns[i])
    ensures TypedAll(ns, fs)
    decreases fs
  {
    if fs != [] {
      var f := fs[0];
      if !f.entry.Other? && Lookup(ns, f.path).Some? && f.entry.Dir? {
        var n := Lookup(ns, f.path).value;
        assert HandlePolicyChanges(n, f.policy) == n;
        EverythingTyped(env, Rule(f.node, f.policy), n.subs, f.children);
      }
      EverythingTyped(env, rule, ns, fs[1..]);
    }
  }

  lemma {:induction false} WipePlain(n: Node)
    requires Plain(n)
    ensures Plain(WipeRec(n))
    decreases n
  {
    forall i | 0 <= i < |n.subs| ensures Plain(WipeRec(n.subs[i])) { WipePlain(n.subs[i]); }
  }

  lemma {:induction false} MarkPlain(n: Node, extend: bool)
    requires Plain(n)
    ensures Plain(MarkRemovedRec(n, extend))
    decreases n
  {
    if !Wiped(n) {
      forall i | 0 <= i < |n.subs| ensures Plain(MarkRemovedRec(n.subs[i], ExtendBelow(n, extend))) {
        MarkPlain(n.subs[i], ExtendBelow(n, extend));
      }
    }
  }

  lemma {:induction false} NotFoundPlain(env: Env, rule: Rule, n: Node)
    requires Plain(n) && Conforms(env, rule, n)
    ensures Plain(HandleNotFound(env, n, rule.node, rule.policy))
  {
    SupposedIsRule(env, rule, n);
    WipePlain(n);
    MarkPlain(n, true);
    assert HandlePolicyChanges(n, n.policy) == n;
  }

  /** Only a listing node whose subnodes are all wiped may have another state: it gets wiped. */
  lemma {:induction false} CompletePlain(env: Env, rule: Rule, n: Node, f: Found)
    requires Conforms(env, rule, n) && n.path == f.path && Obeys(env, rule, f) && AllPlain(n.subs)
    requires n.policy.NoPolicy? ==> HeadState(n).Directory? || n.subs == []
    ensures Plain(CompleteNode(env, n, f))
  {
    hide HandleNotFound;
    var r := RuleFor(env, rule, n.path).value;
    forall i | 0 <= i < |n.subs|
      ensures Plain(WipeRec(n.subs[i]))
      ensures forall b :: Plain(MarkRemovedRec(n.subs[i], b))
      ensures Plain(HandleNotFound(env, n.subs[i], r.node, r.policy))
    {
      WipePlain(n.subs[i]);
      forall b { MarkPlain(n.subs[i], b); }
      NotFoundPlain(env, r, n.subs[i]);
    }
    assert AllPlain(SettleSubnodes(env, n, f));
  }

  lemma {:induction false} ReachedPlain(env: Env, rule: Rule, prior: Option<Node>, f: Found)
    requires Obeys(env, rule, f) && !f.entry.Other?
    requires prior.Some? ==> Conforms(env, rule, prior.value) && prior.value.path == f.path
    requires prior.Some? ==> Plain(prior.value) && !Wiped(prior.value) && prior.value.history != []
    ensures var n := Reached(env, prior, f);
      && AllPlain(n.subs) && (n.policy.NoPolicy? ==> HeadState(n).Directory? || (n.subs == [] && !f.entry.Dir?))
  {
    hide SetKind, SetFlag;
    if prior.Some? { assert HandlePolicyChanges(prior.value, f.policy) == prior.value; }
  }

  /** Siblings that a listing may reach are live. */
  ghost predicate Reachable(ns: seq<Node>, fs: seq<Found>) {
    forall i :: 0 <= i < |fs| && Lookup(ns, fs[i].path).Some? ==> Untouched(Lookup(ns, fs[i].path).value)
  }

  lemma {:induction false} MergeOnePlain(env: Env, rule: Rule, ns: seq<Node>, f: Found)
    requires AllConform(env, rule, ns) && Obeys(env, rule, f) && AllPlain(ns) && Reachable(ns, [f])
    requires DistinctPaths(f.children)
    ensures AllPlain(MergeOne(env, ns, f))
    decreases f
  {
    hide HandleFoundNode, CompleteNode;
    if !f.entry.Other? {
      var prior := Lookup(ns, f.path);
      assert [f][0] == f;
      var n := Reached(env, prior, f);
      ReachedConforms(env, rule, prior, f);
      ReachedPlain(env, rule, prior, f);
      if f.entry.Dir? {
        ReachedSubs(env, rule, prior, f);
        MergeAllConforms(env, Rule(f.node, f.policy), n.subs, f.children);
        MergeAllPlain(env, Rule(f.node, f.policy), n.subs, f.children);
      }
      CompletePlain(env, rule, MergeInside(env, n, f), f);
    }
  }

  lemma {:induction false} ReachedSubs(env: Env, rule: Rule, prior: Option<Node>, f: Found)
    requires Obeys(env, rule, f)
    requires prior.Some? ==> Conforms(env, rule, prior.value) && prior.value.path == f.path && Untouched(prior.value)
    ensures var n := Reached(env, prior, f);
      AllUntouched(n.subs) && Reachable(n.subs, f.children) && n.subs == if prior.Some? then prior.value.subs else []
  {
    hide HandleNodeChanges;
    if prior.Some? {
      assert HandlePolicyChanges(prior.value, f.policy) == prior.value;
      UntouchedSubs(prior.value);
    }
  }

  lemma {:induction false} MergeAllPlain(env: Env, rule: Rule, ns: seq<Node>, fs: seq<Found>)
    requires AllConform(env, rule, ns) && AllObey(env, rule, fs) && AllPlain(ns) && Reachable(ns, fs)
    requires DistinctPaths(fs)
    ensures AllPlain(MergeAll(env, ns, fs))
    decreases fs
  {
    hide MergeOne;
    if fs != [] {
      assert Reachable(ns, [fs[0]]) by { assert [fs[0]][0] == fs[0]; }
      MergeOnePlain(env, rule, ns, fs[0]);
      MergeOneConforms(env, rule, ns, fs[0]);
      RestLookups(env, ns, fs);
      MergeAllPlain(env, rule, MergeOne(env, ns, fs[0]), fs[1..]);
    }
  }

  lemma {:induction false} PassPlain(env: Env, root: SearchNode, ns: seq<Node>, fs: seq<Found>)
    requires AllConform(env, RootRule(root), ns) && AllObey(env, RootRule(root), fs)
    requires AllPlain(ns) && AllUntouched(ns) && DistinctPaths(fs)
    ensures AllPlain(InitiateBackup(env, ns, fs, root))
  {
    hide HandleNotFound;
    MergeAllConforms(env, RootRule(root), ns, fs);
    MergeAllPlain(env, RootRule(root), ns, fs);
    var all := MergeAll(env, ns, fs);
    forall i | 0 <= i < |all| ensures Plain(HandleNotFound(env, all[i], Some(root), root.policy)) {
      NotFoundPlain(env, RootRule(root), all[i]);
    }
  }
}
