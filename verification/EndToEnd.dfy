/** Backup and restore together: what a restored path looks like is what the backup saw. */
module EndToEnd {
  import opened Data
  import opened Metadata
  import opened Backup
  import opened RepoPath
  import opened BlobStore
  import opened Renumber
  import opened FixedConfig
  import opened Runs
  import opened Chains
  import opened TimeTravel
  import opened FileSystem
  import opened Restore

  lemma {:induction false} StoredIsResolved(env: Env, blobs: Blobs, i: FileInfo, c: Content)
    requires Resolves(env, blobs, i, c)
    ensures StoredContent(blobs, i) == c
  {
    hide FilePath;
  }

  /** An entry that matches a state describing another entry is that entry. */
  lemma {:induction false} MatchesWhatWasSeen(env: Env, blobs: Blobs, s: PathState, seen: Option<Entry>, e: Entry)
    requires Describes(env, blobs, s, seen) && Matches(blobs, s, e)
    ensures seen == Some(e)
  {
    hide Resolves, StoredContent;
    if s.RegularFile? { StoredIsResolved(env, blobs, s.info, seen.value.content); }
  }

  /** Restoring a tracked path to a backup that is still referenced yields exactly the entry that the run
      of this backup saw there; and a path that has no state to restore is one that the run did not see. */
  lemma {:induction false} RestoreYieldsWhatWasSeen(env: Env, root: SearchNode, s: Repo, numbers: seq<nat>, rs: seq<Run>, links: Links, dirs: nat, id: nat, disk: Entries)
    requires CoveredBy(env, RootRule(root), links, dirs) && Trail(env, root, s, numbers, rs, links, dirs)
    requires id < |s.times| && Locate(s.paths, links).Some?
    requires var n := Locate(s.paths, links).value;
      ExistingState(n, id).Some? ==> RestoredSelf(s.blobs, disk, n, ExistingState(n, id).value)
    ensures |numbers| == |s.times| && numbers[id] < |rs|
    ensures var n := Locate(s.paths, links).value;
      var seen := EntryOf(Sight(rs[numbers[id]].found, links));
      && (ExistingState(n, id).Some? ==> n.path in disk && seen == Some(disk[n.path]))
      && (ExistingState(n, id).None? ==> seen.None?)
  {
    hide Explains, RunsInOrder, CoherentBelow, Sound, CoveredBy, Describes, RestoredSelf, Matches, Sight;
    LookupIsExact(env, root, s, numbers, rs, links, dirs, id);
    var n := Locate(s.paths, links).value;
    PolicyOfTarget(env, root, s, links, dirs);
    assert Lookback(s.paths, links, id) == SearchPathState(n.policy, n.history, id);
    AnswerMeans(env, s.blobs, disk, n, id, LogOf(rs, links), numbers[id]);
  }

  lemma {:induction false} PolicyOfTarget(env: Env, root: SearchNode, s: Repo, links: Links, dirs: nat)
    requires Sound(env, root, s) && CoveredBy(env, RootRule(root), links, dirs) && Locate(s.paths, links).Some?
    ensures Locate(s.paths, links).value.policy.Track?
  {
    hide StoreOk;
    LocatedTracked(env, RootRule(root), s.paths, links, dirs);
  }

  lemma {:induction false} AnswerMeans(env: Env, blobs: Blobs, disk: Entries, n: Node, id: nat, log: Log, j: nat)
    requires j < |log| && n.policy.Track? && Right(env, blobs, SearchPathState(n.policy, n.history, id), log, j)
    requires ExistingState(n, id).Some? ==> RestoredSelf(blobs, disk, n, ExistingState(n, id).value)
    ensures ExistingState(n, id).Some? ==> n.path in disk && log[j] == Some(disk[n.path])
    ensures ExistingState(n, id).None? ==> log[j].None?
  {
    hide Resolves, StoredContent, SearchPathState;
    var answer := SearchPathState(n.policy, n.history, id);
    if ExistingState(n, id).Some? {
      MatchesWhatWasSeen(env, blobs, answer.value, log[j], disk[n.path]);
    }
  }
}
