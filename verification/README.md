# nano-backup in Dafny

nano-backup keeps versioned backups of a file system. A run loads a tree of path nodes with compressed
histories from one metadata file, searches the file system by a config, merges what it finds into the
tree, stores new file contents under their hash, writes the metadata and deletes what is no longer
referenced. A restore looks the states of one backup up, compares them with the file system and repairs
the differences. This project models that program and proves what it is for.

Path nodes, states, hints and configs are datatypes. Code that the program runs in place is imperative
here, too: `BackupPass.Pass` (counters and search results), `MetadataFile.Store` and `Writer`,
`MetadataReader.Reader`, `BlobStore.Repository`, `GarbageCollector.Collector`, `Restore.Restorer` over
`FileSystem.Disk`, `CrashSafety.Writer`, `Search.SearchIterator`, `SearchTree.Parser`, `Blake2b.State`,
`StringTable.Table` and `Integrity.Context`. The table of all paths is a search among siblings, with the
same results (`PathTable.PassByTable`). Each of their methods is proved equal to a function of its
inputs and its old state; the theorems are about those functions. `die` is the result `None`. Bytes,
widths, signed times and the 128-bit counter are explicit, and written numbers are little-endian.

## Main results

* **From config to restored entry** (`Session.RestoreToBackup`). A config is parsed, any number of
  backups are made with it, and a tracked path is restored to a backup that the metadata still has. This
  succeeds exactly if the file system showed the path when it was searched for that backup, and leaves
  exactly the entry that was there; nothing that need not be restored changes. It rests on time travel
  over whole runs (`TimeTravel.TimeTravelIsExact`), restore reaching its target (`Restore.RestoreTo`),
  and the search and the parser meeting what those rely on (`Sightings.SearchIsGenuine`,
  `SearchRules.SearchFollowsConfig`, `SearchNames.SearchIsWritable`, `ConfigTree.ParsedTreeIsProper`).
* **Copied and mirrored paths** (`Untracked.SinglePass`, `UntrackedRuns.MemoryIsLast`). A copied path keeps
  the last entry that the file system ever showed, a mirrored one has what it showed last, below
  directories that are found; elsewhere the topmost missing path decides. `PolicyChange.AnyPass` says
  what happens to a path whose policy changes.
* **Counters** (`RefCountsExact.ConservesIffUnblocked`). Reference counts and the path count stay right
  if and only if no found path lies below a node whose policy change wipes its subnodes, and then no
  decrement underflows (`BackupPass.Pass.InitiateBackup`). With one config for all runs the condition
  always holds (`FixedConfig.NothingBlocked`).
* **Histories and wiping** (`History.PassKeepsDiscipline`, `Wiping.PassKeepsShape`,
  `Wiping.PathCountIsEmitted`, `Stranding.PathCountIffNothingStranded`).
* **Metadata file** (`CodecRoundTrip.LoadOfWritten`, `WrittenIsExact`,
  `CodecTwice.TwoRoundTripsAreIdentity`, `CodecCanonical.LoadedIsWritten`, `Renumber.CompactionKeepsLookup`).
* **Stored files** (`BlobStore.AddFileResolves`, `GarbageCollector.CollectionIsExact`,
  `RepoPath.FilePathInjective`, `SweepOrder.SweepFits`, `RepositoryCheck.CheckRepository`).
* **Crashes** (`Durable.RunIsCrashSafe`, `Atomicity.CrashIsAtomic`, `Atomicity.RunEndsResting`,
  `Histories.RestoreAfterCrashes`). A run is executed as the durable steps it takes. At every step a crash
  of the system leaves the repository from before the run or the one from after it, loadable and with
  every stored file it refers to. After any sequence of complete and crashed runs, each starting from
  the disk that the last one left, time travel and restoring are exact for every committed run.
  `CommitSafety.EveryStepIsSafeIff` says from which other starting states a commit is safe.
* **Search and config** (`Search.SearchEverything`, `SearchTree.Parse`, `ConfigMeaning.ConfigMeans`,
  `ConfigPolicy.PolicyIsNearest`, `SearchTree.OrderDoesNotMatter`).
* **Hashing and tables** (`Blake2b.HashChunks`, `StringTable.UseTable`).

## Where the program does not do what it promises

* A policy change away from `track` wipes the subnodes of a path that is no directory in the metadata
  (src/backup.c:279-286). If the search then finds one of them, its references are given back twice, a
  counter can wrap around, and the found file is not written: `RefCountsTrace`. The exact condition is
  `RefCountsExact.ConservesIffUnblocked`.
* A removed path that lost its policy while it has the state of a non-directory with subnodes is wiped
  without them (src/backup.c:307-312); they are never written again, but still counted:
  `StrandingTrace.ThirdBackup`. The exact condition is `Stranding.PathCountIffNothingStranded` for a pass,
  and `Wiping.RemovedClosedIff` for one removed path.
* A mirrored path that is removed stays in the backup, if the directory above it is removed, too, and is
  not mirrored: markAsRemovedRecursively() does not look at mirroring (src/backup.c:213-245):
  `Untracked.MirrorInsideCopyStays`. The exact condition is `Untracked.Outlives` in `Untracked.SinglePass`.
* If the config gives the root directory a policy, or searches it by regular expression, found paths
  start with two slashes, and their names are ones that the reader of the metadata rejects:
  `RootTrace.RootBackupIsLost`. The exact conditions are `ConfigTree.RootIsSpared` and `SearchRules.RootListingIsNotLoadable`.
* A directory that was made but not yet synced when the process was killed is found by the next
  backup, which does not sync its parent. A later system crash can lose it, although the metadata
  refers to files in it: `CrashSafety.KilledBackupSpoilsTheNext`. The exact condition is
  `CommitSafety.EveryStepIsSafeIff`.
* The second pass of the integrity check stops at the first broken point of a node, so that its
  progress can stay below the announced sum: `Integrity.ProgressFallsShort`. The exact condition is
  `Integrity.ProgressIsCompleteIff`.

## Hypotheses

The theorems over whole runs assume: every run uses one config; file names are valid path elements and
link targets hold no null byte (`SearchNames.UsualWorld`); files do not change between being found and
being stored (`Finishing.Steady`); all contents can be stored and no count exceeds 64 bits
(`Naming.Feasible`); and a content change shows in size, or in time and hash (`TimeTravel.Visible`,
because src/backup-helpers.c:88-97 does not look further). Restoring assumes that no symlink sits where
a file or a directory belongs, and the same about contents on the disk (`Session.Clear`).

## Model

| member | source | states |
|---|---|---|
| Metadata.SetKindIsMask | src/metadata.h:139-143 | setting an exclusive hint with the mask macro is the structured operation: it replaces the core and keeps the policy bits, and "unchanged" drops them |
| Metadata.SetFlagIsMask | src/metadata.h:139-143 | raising a change flag with the mask macro drops an exclusive value and keeps all other flags and the policy bits |
| Metadata.CodeIsInjective | src/metadata.h:76-131 | no two hints share a bit pattern |
| Str.SplitIsSplit | src/str.c:120-147 | what strSplitPath() yields: head without trailing slash, one slash, and a tail of slashes followed by a slash-free name; without a slash everything is tail |
| Str.SplitIsUnique | src/str.c:120-147 | that characterisation determines the split |
| Str.SplitPath | src/str.c:120-147 | the two loops over the index compute that split |
| Str.SplitAppend | src/str.c:221-238 | splitting undoes joining, for a base without trailing slash |
| Str.SplitAppendRoot | src/str.c:221-238 | for the base "/" it does not: the tail keeps a slash |
| Str.StripTrailingSlashes | src/str.c:92-105 | the longest prefix that does not end with a slash |
| BackupPass.ApplyChanges | src/backup-helpers.c:63-130 | the in-place comparison rewrites state and hint as the specification says, for every type and every combination of differences |
| Comparison.OtherType | src/backup-helpers.c:63-130 | a path of another type: which hint, and that the state is the new one, unless the path has no policy |
| Comparison.SameFile | src/backup-helpers.c:63-130 | a file that is still one: exactly which differences raise which flags, when its content counts as changed, and what its state becomes |
| Comparison.SameOther | src/backup-helpers.c:63-130 | the same for links and directories |
| Comparison.RuleMeans | src/backup.c:124-160 | the rule of a path in a directory: the first subnode that fits its name, else the policy of the directory, unless it has none or the path is ignored |
| BackupPass.Pass.DecrementRefCounts | src/backup.c:167-173 | every backup loses one reference per point; if no counter is negative afterwards, none was decremented at zero on the way |
| BackupPass.Pass.PrepareNodeForWiping | src/backup.c:181-192 | a live node becomes wiped, the path count drops by one and its points are dereferenced; a wiped node is left alone |
| BackupPass.Pass.WipeRecursively | src/backup.c:194-203 | the same for a node and everything below it, with the exact change of every counter |
| BackupPass.Pass.MarkAsRemovedRecursively | src/backup.c:213-245 | which nodes below get a removed point, which hints they get, and by how much the current backup is referenced more |
| BackupPass.Pass.ChangePolicy | src/backup.c:254-290 | history truncation, lost-history hint and wiping of subnodes, with both dereferences after the pop covered |
| BackupPass.Pass.RemovePath | src/backup.c:298-317 | the new node and every counter change for a path that is not found (which policies wipe it, and which keep it, is CopiedOrMirrored and AnyPass); no underflow for a live node that the counters cover |
| BackupPass.Pass.FoundKnown | src/backup.c:391-434 | the new node and every counter change for a path that is found; no underflow for a live node that the counters cover |
| BackupPass.Pass.MatchSubnodes | src/backup.c:124-141 | the first search node that matches the name |
| BackupPass.Pass.RemoveNotFound | src/backup.c:446-477 | every sibling without a hint is handled with the policy it would have been found with, or wiped; all others stay |
| BackupPass.Pass.InitiateMetadata | src/backup.c:491-597 | one step of the recursion over the search results merges exactly the result in front, with everything found inside it, and consumes exactly its events |
| BackupPass.Pass.InitiateBackup | src/backup.c:839-854 | the whole pass computes the merged tree and the change of every counter; with covered counters and no wiped node found, no decrement underflows |
| BackupFrame.MergeOneLookup | src/backup.c:503-524 | merging a result rewrites the sibling it names and no other |
| BackupFrame.MergeAllLookup | src/backup.c:491-597 | merging a listing processes every named sibling once and leaves the others as they were |
| PathTable.TableIsLocate | src/metadata.c:440 | the table that loading fills answers for a path of any depth with the node that the way through its directories leads to, or with none if there is no way |
| PathTable.PassByTable | src/backup.c:502-524 | merging with that table, which knows loaded nodes only, is merging with a search among siblings; no lookup ever yields a node of another list |
| RefCounts.PassConservesCounts | src/backup.c:491-597 | as long as no wiped node is found, a pass changes every reference count and the path count by exactly as much as a recount changes |
| RefCountsExact.SafeIffUnblocked | src/backup.c:279-286 | whether a wiped node is going to be found can be told from the loaded tree and the results: exactly if no found path lies below a node whose policy change wipes its subnodes |
| RefCountsExact.WipedFoundGap | src/backup.c:391-434 | finding a wiped node leaves exactly one of two counters off by one |
| RefCountsExact.ConservesIffUnblocked | src/backup.c:254-290 | the counters of a pass over loaded metadata stay right if and only if that condition holds |
| RefCountsTrace.BackupCountsGoWrong | src/backup.c:279-286 | a concrete pass on which they go wrong, whatever the rest of the config says |
| RefCountsTrace.CounterUnderflows | src/backup.c:167-173 | on it a count of 2 is decremented three times |
| RefCountsTrace.FoundFileIsDropped | src/backup.c:279-286 | on it a file that was found ends up wiped, so that it is not written |
| History.PopLeavesExisting | src/backup.c:262-279 | popping a removed point leaves an existing head, which is then dereferenced |
| History.PassKeepsDiscipline | src/backup.c:491-597 | a pass keeps every live history non-empty, with an existing oldest point, no two adjacent removals, a single point unless tracked, and strictly newest first |
| Wiping.PassKeepsShape | src/backup.c:181-203 | after a pass a wiped node has only wiped descendants |
| Wiping.PathCountIsEmitted | src/metadata.c:456-482 | the maintained path count is the number of nodes that the writer emits, although it skips whole subtrees |
| Wiping.RemovedClosedIff | src/backup.c:298-317 | removing one path keeps wiping downward closed if and only if the path is not a policy-less, untracked non-directory with subnodes |
| Stranding.EmittedIffClosed | src/metadata.c:456-482 | the writer emits at most the live nodes, and all of them if and only if wiped nodes have only wiped descendants |
| Stranding.PathCountIffNothingStranded | src/backup.c:298-317 | after a pass over loaded metadata wiping is downward closed, and the maintained path count is the number of nodes that are written, if and only if no path that is not found, at any depth, has lost its policy while it has the state of a non-directory with subnodes |
| StrandingTrace.ThirdBackup | src/backup.c:369-383 | three backups of empty files that lead there: of a copied file, of a directory in its place that a new config leaves without policy, with a file in it, and of neither; the third one wipes the directory, keeps its subnode alive, writes nothing and counts one path |
| StrandingTrace.NothingToFinish | src/backup.c:800-821 | finishing changes nothing in these backups |
| FixedConfig.NothingBlocked | src/search.c:253-311 | with one policy per path no found path is below a wiped one |
| FixedConfig.EverythingTyped | src/backup.c:369-383 | with one policy per path a directory without policy is never found where the metadata has another type |
| FixedConfig.PassConforms | src/backup.c:491-597 | a pass leaves every node with the policy of its path |
| Untracked.SinglePass | src/backup.c:298-317 | with one config, what a pass makes of any copied or mirrored path: found, it has one point, which is new if something changed; not found, it stays with its history or is wiped with everything below it, which the topmost missing path decides by its policy, or the directory that has become something else |
| Untracked.CopiedOrMirrored | src/backup.c:298-317 | in a directory that is found, a missing path is wiped with everything below it if it is mirrored, and stays with its history if it is copied |
| Untracked.MissingBelow | src/backup.c:213-245 | below a missing directory that is not mirrored everything stays, and a tracked path records its removal only if all directories down to it are tracked |
| Untracked.MirrorInsideCopyStays | src/backup.c:213-245 | a mirrored file in a copied directory stays if both are gone |
| UntrackedRuns.RunRemembers | src/nb.c:254-309 | over a whole run: the one state of a copied or mirrored path describes what was seen of it, or what was known before, or is gone |
| UntrackedRuns.MemoryIsLast | src/nb.c:254-309 | after any number of runs a copied path has the last entry that the file system ever showed, a mirrored one what it showed last |
| UntrackedRuns.RestoreYieldsMemory | src/restore.c:13-46 | restoring it, to whichever backup, yields that entry |
| PolicyChange.AnyPass | src/backup.c:254-290 | with a changed config: which points a path keeps, and what it gets, under every combination of its old and its new policy, found or not, at any depth; a path without policy lives exactly as long as something below it |
| CodecRoundTrip.NodeRoundTrip | src/metadata.c:392-453 | reading a written node yields its path from parent and name, policy, normalised history and the live subnodes in reverse order, and ends where it ends |
| CodecRoundTrip.LoadOfWritten | src/metadata.c:506-620 | loading a written file yields the written content without wiped subtrees, hints and undefined hash bytes, with new ids |
| CodecRoundTrip.LoadablesArePrefixFree | src/metadata.c:558-561 | no loadable file is a strict prefix of another one |
| CodecRoundTrip.WrittenIsExact | src/metadata.c:558-561 | every strict prefix and every non-empty extension of a written file is rejected |
| CodecTwice.LoadedIsNormal | src/metadata.c:506-564 | whatever bytes can be loaded, the result is in normal form |
| CodecTwice.TwoRoundTripsAreIdentity | src/metadata.c:506-620 | writing and loading loaded metadata twice is the identity; once reverses every sibling list |
| CodecCanonical.LoadedIsWritten | src/metadata.c:506-564 | any file that can be loaded is, byte for byte, what is written for its content with every list of siblings reversed, unless link targets with null bytes were cut |
| Vectors.SmallFileBytes | src/metadata.c:317-372 | the bytes of the state of a file that fits the place of its hash |
| Vectors.LargeFileBytes | src/metadata.c:317-372 | and of one with a stored file |
| Vectors.FileBytes | src/metadata.c:576-620 | the metadata of a small repository, byte by byte |
| Renumber.IdsAreMonotone | src/metadata.c:583-609 | new ids are strictly monotone in age, start at 0 with the current backup, and entry k of the table is the time of the backup with id k |
| Renumber.IdsAreOnto | src/metadata.c:583-609 | every id below the count belongs to a referenced backup |
| Renumber.CompactionKeepsLookup | src/restore.c:13-31 | looking up a surviving backup by its new id in the written history finds what the old history says about it |
| MetadataFile.Store.UpdateIds | src/metadata.c:583-592 | the loop that counts ids up in place assigns exactly these ids |
| MetadataFile.Store.Write | src/metadata.c:576-620 | the bytes appended are the encoding of ids, times, config history, path count and path list |
| MetadataFile.Writer.WriteHistory | src/metadata.c:317-372 | the bytes of a history: only the used part of a hash, a slot only for a stored file |
| MetadataFile.Writer.WriteList | src/metadata.c:456-482 | the number of live nodes, then each of them with everything below it |
| MetadataReader.Reader.Read | src/metadata.c:29-40 | a read dies or returns the next bytes and moves past them, and never passes the end, for arbitrary bytes |
| MetadataReader.Reader.ReadPoint | src/metadata.c:192-273 | one history point, dying on an unknown id or type; exactly its backup is counted |
| MetadataReader.Reader.ReadSubnodes | src/metadata.c:392-453 | a list of nodes, each prepended to those before it, with all references counted |
| MetadataReader.Reader.LoadImage | src/metadata.c:506-564 | the file is loaded exactly when it is a complete image, and every reference count is the number of points that refer to the backup |
| RepoPath.FilePathInjective | src/repository.c:76-93 | different (hash, size, slot) have different paths |
| Vectors.FilePathIs | src/repository.c:76-93 | every path of a stored file: a digit of the hash, a slash, two digits, a slash, the others, and size and slot in hexadecimal without leading zeros |
| RepoPath.BuildFilePath | src/repository.c:67-93 | the in-place construction stays inside the computed capacity, fills it completely and yields that path |
| BlobStore.FindSlotIsFirst | src/backup.c:717-738 | the probe finds the first slot that is free or holds the same content; there is none exactly when all 256 hold others |
| BlobStore.AddFileResolves | src/backup.c:749-788 | a success leads to the content, changes no stored file, adds at most one and keeps the store consistent, whatever collisions and holes there are |
| BlobStore.StoredOnce | src/backup.c:717-788 | adding the same content again changes nothing and leads to the same slot |
| BlobStore.AddFileFails | src/backup.c:717-738 | adding fails exactly if all 256 slots hold other contents |
| BlobStore.FinishFails | src/backup.c:749-788 | storing a found file fails exactly if its time or its size is another one, it is no file any more, or all slots are taken |
| BlobStore.FinishListLaw | src/backup.c:800-821 | finishing fills in exactly the missing hashes and slots; each then leads to the content of its file |
| BlobStore.EqualsStoredFile | src/backup.c:659-701 | comparing block by block decides equality |
| BlobStore.Repository.SearchFileDuplicates | src/backup.c:717-738 | the probing loop is that search, and ends after at most 256 probes |
| BlobStore.Repository.CopyFileIntoRepo | src/backup.c:608-644 | copying block by block stores exactly the content under the path |
| BlobStore.Repository.AddFileToRepo | src/backup.c:749-788 | store and file info after adding a file; it fails exactly if the file changed or every slot is taken |
| BlobStore.Repository.FinishBackup | src/backup.c:800-821 | the traversal finishes every node and keeps the store consistent |
| GarbageCollector.PopulateTable | src/garbage-collector.c:17-48 | the table gets exactly the paths of stored files that live nodes refer to |
| GarbageCollector.ReferencedAsWritten | src/garbage-collector.c:17-48 | these are exactly the files that the written metadata refers to |
| GarbageCollector.SweepIsExact | src/safe-wrappers.c:546-573 | post-order removal leaves an item exactly if it or something below it is preserved, and of the files exactly the preserved ones |
| GarbageCollector.SweepIsIdempotent | src/safe-wrappers.c:546-573 | a second sweep removes nothing |
| GarbageCollector.CollectionIsExact | src/garbage-collector.c:108-137 | after a collection exactly the present files remain that are config, metadata, lockfile or referenced by the written metadata |
| GarbageCollector.Collector.RemoveRecursivelyIf | src/safe-wrappers.c:546-573 | the recursion with its flag computes the sweep, count and size say what was removed, and the paths go in the order of the specification |
| GarbageCollector.Collector.CollectGarbage | src/garbage-collector.c:108-137 | the statistics are the difference between before and after, and the removed paths are those of every item in turn |
| SweepOrder.SweepFits | src/safe-wrappers.c:546-573 | on a disk that holds the tree, the removals of the sweep in their order take away leaves only, nothing preserved, and every stored file that is not preserved: all that the crash theorems assume of deletions |
| SweepOrder.CollectingRunEnds | src/nb.c:304-309 | so a run that sweeps what is on the disk ends with its result on the disk, whatever a later crash does |
| Finishing.PassHashed | src/backup-helpers.c:21-54 | every hint that says "already hashed" after a pass stands beside the identity of the file that is going to be stored |
| Stock.PassStocked | src/backup.c:491-597 | after a pass only contents that are about to be stored may be missing from the repository |
| Stock.FinishedStocked | src/backup.c:800-821 | once the backup is finished nothing is missing |
| Runs.LedgerIsRecount | src/backup.c:491-597 | with one config the counters after a pass are the number of points per backup, config history included |
| Runs.NextIs | src/nb.c:254-309 | what a run leaves: the normalised tree, the compacted times, recounted references and the stored files that are still referenced |
| Runs.RunKeepsSound | src/nb.c:254-309 | search, compare, store, write, collect and load keep the invariant: counters, path count, histories, policies, and every referenced file present |
| Chains.ChainPass | src/backup.c:391-434 | a pass extends the history of a tracked path by exactly what the search saw of it, through ancestors that are tracked or always found as directories |
| TimeTravel.TrailStep | src/nb.c:254-309 | one more run keeps every answer about the past and adds the right one for itself, across finishing, renumbering, writing, loading and collecting |
| TimeTravel.TrailWith | src/restore.c:13-31 | the answers depend only on the stored files that the metadata refers to |
| TimeTravel.TimeTravelIsExact | src/restore.c:13-31 | after any number of runs, looking a tracked path up by the current id of a referenced backup yields what that run saw, with its content, or that it was missing, or nothing before it first appeared |
| Naming.PassPlaced | src/backup.c:491-597 | a pass keeps every node named by its parent and a valid name, and siblings different |
| Naming.FeasibleCompletes | src/metadata.c:576-620 | hence what a run leaves can be written and loaded, unless a count exceeds 64 bits |
| Naming.RunKeepsOrder | src/nb.c:254-309 | names stay in order over whole runs |
| Naming.OrderlyIsRestorable | src/restore.c:247-271 | loaded metadata meets everything restoring relies on |
| Restore.InitiatePlans | src/restore.c:192-237 | after planning, the hints in the scope of the request say how the file system differs from the recorded states, and no other node has one |
| Restore.ComparedCore | src/restore.c:70-118 | a path is planned to be replaced exactly if its type differs |
| Restore.Restorer.RestoreFile | src/restore.c:281-311 | the file has the stored content; nothing else changes |
| Restore.Restorer.RestorePath | src/restore.c:319-341 | a missing path gets the recorded type, content or target, owner, mode and time; nothing changes outside it but the time of its directory |
| Restore.Restorer.FinishNode | src/restore.c:351-454 | a subtree is restored, the directory above is told whether its time was disturbed, what is not to be restored stays, and what is there with its recorded type and has no policy keeps everything but its time |
| Restore.RestoreTo | src/restore.c:247-271 | planning and executing reach the target: every path in the scope that existed at the id has its type, and with a policy all its attributes, directory times included; no other path is touched, nothing in the scope that is not to be restored, and of a path that is there and has no policy at most the time |
| EndToEnd.RestoreYieldsWhatWasSeen | src/restore.c:462-470 | in any repository whose runs are known, the entry at a restored tracked path is the entry that the run of the backup saw |
| CrashSafety.Writer.CloseFile | src/repository.c:340-389 | closing a stored file takes the durable steps in this order: sync, make and sync directories, rename, sync |
| CrashSafety.Writer.CloseMetadata | src/repository.c:340-389 | closing the metadata: sync, rename, sync |
| CrashSafety.BlobStored | src/repository.c:340-389 | closing a stored file in any state of the disk: its content is synced, as are its entry and that of the outer directory, and that of the inner one if it was made now |
| CrashSafety.BackupIsCrashSafe | src/nb.c:304-307 | for any list of files to store that supplies what the new metadata needs and any deletions that spare it: in every state, whichever metadata survives a system crash refers only to stored files that are there with the right content |
| CrashSafety.CrashLeavesClean | src/repository.c:340-389 | after such a crash and a reboot the next backup starts from a clean repository |
| CrashSafety.AnyHistoryIsClean | src/nb.c:304-307 | any sequence of such backups, complete or crashed, leaves a dependable repository |
| CrashSafety.CommitIsSafeIffNothingExposed | src/repository.c:340-389 | from any starting state a commit has survived every crash after its last step if and only if no needed entry was found unsynced and left unsynced |
| CommitSafety.EveryStepIsSafeIff | src/repository.c:340-389 | every intermediate state of a commit survives every crash if and only if the first one does and no stored file that the new metadata needs, nor a directory of one, was found unsynced and left unsynced |
| CrashSafety.KilledBackupSpoilsTheNext | src/repository.c:355-377 | a process killed between making and syncing a directory makes the next complete backup unsafe |
| Durable.ListDiffers | src/backup.c:749-821 | the files that finishing a backup copies are exactly the difference it makes to the repository: each at a path that was free, no two at the same |
| Durable.NeedsAreComplete | src/nb.c:304-307 | every file that the written metadata refers to is among those that the crash theorems promise |
| Durable.RunIsCrashSafe | src/nb.c:304-307 | BackupIsCrashSafe for the writes that the run really makes, the metadata it really writes, and every removal in post-order of items that are not preserved |
| Durable.RunEndsOnDisk | src/nb.c:304-309 | after the last step the disk holds the repository that the next run starts from |
| Atomicity.RunEndsResting | src/nb.c:304-309 | and a crash after that can leave nothing else |
| Atomicity.SurvivorIsOldOrNew | src/repository.c:340-389 | whatever metadata a crash leaves at any step is the old file or the new one, complete and loadable; there is none only if there was none before |
| Atomicity.CrashIsAtomic | src/nb.c:304-309 | a run cut short at any step either happened or did not: the next process finds the repository from after it or from before it, sound and with every stored file it refers to |
| Histories.RestingReloads | src/nb.c:271-273 | what a process loads from the disk is the repository that was left there, up to stored files that nothing refers to |
| Histories.EventKeeps | src/nb.c:254-309 | one process, complete or cut short at any step, leaves the repository of its run or the one from before; a complete one leaves its own |
| Histories.HistoryKeeps | src/nb.c:254-309 | any sequence of complete and crashed processes, each starting from the disk the last one left, keeps the whole invariant |
| Histories.CompleteRunsCommit | src/nb.c:254-309 | in it every complete process commits its run, and a crashed one commits its run or nothing |
| Histories.HistoryTrails | src/restore.c:13-31 | time travel survives crashes: after such a sequence the disk answers exactly for every committed run |
| Histories.RestoreAfterCrashes | src/nb.c:344-358 | and restoring a tracked path succeeds exactly if the file system showed it to the committed run of the backup, and leaves exactly the entry that was there |
| Search.HitComesFirst | src/search.c:189-206 | reporting a path and pushing the current state leaves exactly the walk inside it, its end, and what was left around it |
| Search.SearchIterator.PushCurrentState | src/search.c:85-101 | the stack grows by the current state, whether or not the array is replaced |
| Search.SearchIterator.FinishSearchStep | src/search.c:253-311 | one step of a directory search delivers the first event that is still to come, skipping ignored names, or dies on ambiguous rules |
| Search.SearchIterator.FinishCurrentNode | src/search.c:320-338 | the same for a directory whose contents are named by the config |
| Search.SearchIterator.FinishDirectory | src/search.c:218-232 | one end of directory per directory, then the end of the search |
| Search.SearchEverything | src/search.c:394-402 | the iterator emits exactly the bracketed sequence of the recursive walk |
| SearchRules.SearchFollowsConfig | src/search.c:253-311 | every result carries the node and policy that the config gives its path, and no path appears twice |
| SearchRules.RootListingIsNotLoadable | src/search.c:352-384 | the results can be written and loaded again if and only if the root directory itself was not listed |
| RootTrace.RootBackupIsLost | src/search.c:352-384 | a concrete config and file system: the config parses, the file is found and backed up, and the metadata written for it cannot be loaded |
| SearchNames.SearchIsWritable | src/search.c:253-338 | otherwise everything found, at any depth, has a name and a target that the metadata reader accepts |
| Sightings.SearchIsGenuine | src/search.c:119-145 | said of the file system and the config alone, at every depth: each result is a path that is there and wanted, with what lstat() says of it, or stat() where the config names something below it; every path that is there and wanted has a result; and no listed name is ambiguous |
| Sightings.SightIsGenuine | src/search.c:119-145 | so what a search sees of a path is what the file system shows |
| SearchTree.Parser.InheritToSubnodes | src/search-tree.c:111-124 | exactly the nodes below with nothing explicit on the way inherit |
| SearchTree.Parser.NewNode | src/search-tree.c:49-103 | the node and its missing parents appear, each once in its parent's list and with the inherited policy |
| SearchTree.Parser.Define | src/search-tree.c:241-274 | a definition fails exactly if the path was defined before; otherwise every policy is again that of the nearest explicit ancestor or self |
| SearchTree.Parser.ParseLine | src/search-tree.c:184-280 | one line changes section, policies and expression lists as the line grammar says, or fails exactly when it must; what that comes to for a whole config is ConfigMeans |
| SearchTree.Parse | src/search-tree.c:126-289 | the line loop consumes the whole config and yields the tree that its lines describe |
| ConfigMeaning.ConfigMeans | src/search-tree.c:184-280 | which configs can be read, and what each line of one means, by the last token above it: all definitions and expressions are there, and nothing else |
| ConfigMeaning.TokenGivesPolicy | src/search-tree.c:191-205 | a path under "[copy]", "[mirror]" or "[track]" has that policy |
| ConfigMeaning.TokenCollects | src/search-tree.c:206-213 | a line under "[ignore]" or "[summarize]" ends up in that list |
| SearchTree.GetLine | src/search-tree.c:22-31 | the bytes up to the next newline |
| SearchTree.LinesAreComplete | src/search-tree.c:281-283 | the lines are the whole config, cut at its newlines |
| SearchTree.OrderDoesNotMatter | src/search-tree.c:49-124 | if a config parses, so does every other one with the same definitions in any order, among whatever sections, comments and expressions its lawful lines hold, and all trees have the same paths and policies |
| ConfigTree.ParsedTreeIsProper | src/search-tree.c:49-103 | whatever config parses, its tree has distinct siblings with valid names |
| ConfigPolicy.PolicyIsNearest | src/search-tree.c:49-124 | from config text to the policy of any path, if no regular expression is among its paths: that of the nearest configured path above it or itself, and none if an unnamed path on the way is ignored or has no policy above it |
| ConfigTree.RootIsSpared | src/search.c:150-174 | the search lists the root directory exactly if the config gives it a policy or searches it by regular expression |
| Session.MadeIsOrderly | src/nb.c:254-309 | any number of runs that follow searches with a parsed config succeed and keep the whole invariant |
| Session.PlannedIffStanding | src/restore.c:192-237 | a request can be planned exactly if its path existed at the id, below directories that existed at the id |
| Session.StandingIffSeen | src/restore.c:13-46 | in any repository whose runs are known, a tracked path can be restored to a backup exactly if the run of that backup saw it |
| Session.RestoreSeen | src/nb.c:344-358 | in such a repository restoring succeeds exactly if the run saw the path, leaves exactly what it saw, changes nothing else but what lies above and below, and there only what has to be restored |
| Session.RestoreToBackup | src/nb.c:344-358 | from the text of a config to the restored entry: restoring succeeds exactly if the file system showed the path when it was searched, and leaves exactly the entry that was there |
| Session.ListingStays | src/restore.c:383-454 | a directory above the restored path that has no policy keeps its owner and mode, and its time if nothing is created or replaced directly in it |
| Blake2b.TwoBlockDigest | third-party/BLAKE2/blake2b-ref.h:190-239 | the digest of one full block and a part of another, call by call |
| Blake2b.CounterWraps | third-party/BLAKE2/blake2b-ref.h:68-72 | two words with a carry count modulo 2^128 |
| Blake2b.State.Update | third-party/BLAKE2/blake2b-ref.h:190-215 | absorbing more input keeps the state that of all data so far, however it is cut |
| Blake2b.State.Final | third-party/BLAKE2/blake2b-ref.h:217-239 | the result is the padded-block definition in section 3.3 of RFC 7693 |
| Blake2b.HashChunks | third-party/BLAKE2/blake2b-ref.h:190-239 | the digest does not depend on how a message is cut into updates |
| Blake2b.FileHash | src/file-hash.c:20-59 | the digest of the content, whatever the block size, reporting exactly its size as progress |
| StringTable.Table.Map | src/string-table.c:112-131 | one more key, whether or not the table grows |
| StringTable.Table.DoubleCapacity | src/string-table.c:36-63 | relinking every bucket loses and duplicates nothing |
| StringTable.Table.Get | src/string-table.c:140-156 | the mapped value, or nothing |
| StringTable.UseTable | src/string-table.c:36-156 | any sequence of insertions of distinct keys and lookups is answered as by a finite map |
| Integrity.Context.HistoryPointIsHealthy | src/integrity.c:124-158 | a cached verdict is the verdict of a check; only a new file is checked and counted |
| Integrity.Context.CheckRecursively | src/integrity.c:165-186 | the broken nodes are prepended in reverse order of the traversal |
| Integrity.CheckIntegrity | src/integrity.c:211-234 | the result is exactly the nodes with an unhealthy point, each once; every file is read at most once; progress never exceeds the announced sum, and reaches it if and only if every stored file behind the first broken point of a node is also before or at that of some node |
| RepositoryCheck.CheckRepository | src/integrity.c:80-234 | for a sound repository: exactly the nodes with a point at a file that is missing, no regular file, of another size or of another hash than what was stored, each once, and none if all files are as they were stored |
| RepositoryCheck.VerdictIsRight | src/integrity.c:80-158 | the verdict on a tree and its stored files, said of their contents |
| Integrity.ProgressIsCompleteIff | src/integrity.c:165-186 | the same condition on the tree alone, for the sums of the two passes |
| Integrity.ProgressFallsShort | src/integrity.c:165-186 | a concrete history with two missing files of 21 bytes: 42 are announced, 21 are reported |

## Left out

- System calls, errno, streams, locking and clocks: a map of paths, a model disk and a sequence of durable steps stand for them, and a failing call is a run that does not complete.
- Changes of the file system while it is searched or restored, and the places where the program dies because of them, other than a file that no longer matches when it is stored.
- BackupPass.Pass: nodes are values that a method takes and returns, so that updating them in place, sharing and the region they come from are not captured; the counters are unbounded integers, and the flag for an underflow stands for their wrap-around.
- Restore.InitiatePlans: planning is a function that returns nodes with hints instead of writing them in place.
- Restore.RestoreTo: symlinks at paths of files and directories are excluded by hypothesis, and changing an owner has no side effects on the mode.
- FileSystem.Disk: symlinks are not followed on the way to a path.
- BlobStore.Repository: reading and writing are atomic; the durable steps of the same writer are modelled on their own, in CrashSafety, and Durable says which of them a run takes.
- CrashSafety.BackupIsCrashSafe: needs, writes and deletions are parameters; Durable.RunIsCrashSafe proves what is assumed of them for every run.
- CrashSafety.AnyHistoryIsClean: takes the same parameters; Histories.HistoryKeeps is the statement about real runs.
- CrashSafety.CommitIsSafeIffNothingExposed: speaks of the state after the last step; CommitSafety.EveryStepIsSafeIff speaks of all of them.
- Histories.HistoryKeeps: processes that are killed while the system stays up are not part of the sequence, because of the failure shown by CrashSafety.KilledBackupSpoilsTheNext; nor are the bytes of the config and the lock file.
- CrashSafety.Writer: a crash keeps, for every directory entry, its last value or any it had since its directory was synced; reordering inside one file is covered by treating unsynced contents as arbitrary.
- TimeTravel.TimeTravelIsExact: runs that find nothing to change or are not confirmed are not part of the sequence, because they leave the repository alone.
- SearchTree.Parser: regular expressions are not compiled, so a config with a malformed one is not rejected; line numbers are left out.
- Search.SearchIterator: a path beyond the length limit counts as missing where the program would die, and which search nodes matched anything is not recorded.
- Integrity.CheckIntegrity: stored files do not change during the check.
- StringTable.Table: a chain is a linked value instead of linked memory, and the hash function is arbitrary.
- Blake2b.State: the compression function and the parameter block are arbitrary, and keyed hashing, which the program does not use, is left out.
- Config history: nothing in the program extends it; it is part of the metadata file and of the reference counts only.
- Big-endian hosts and 32-bit times.
- Summaries of changes, colours, prompts, progress output and memory management.
