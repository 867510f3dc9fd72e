# dot-claude-sync, modelled in Dafny

dot-claude-sync keeps the `.claude` directories of several projects in step.
Projects are organised in named groups in a configuration file.

The core of the program is `push`, which runs in three stages:

- **collect**: walk every project's `.claude` tree into file records. A
  directory named `bk` is skipped.
- **resolve**: pick one copy per relative path. The newest copy wins. Within
  one second of the newest, the lowest priority number wins. Inside the
  "folder filter" only the modification time counts.
- **distribute**: copy the winners into every project. Before copying it
  warns about files that would be overwritten, and the user must confirm.

Around this core the model also covers:

- how a group's `paths` and `priority` entries become the project list;
- the path and file-system helpers of package `utils`;
- the per-project decision procedures of the `mv`, `rm`, `backup`, `detect`
  and `config` commands.

The project is one Dafny module per source package or command:

| file | module | source |
|---|---|---|
| strings.dfy, seqs.dfy, paths.dfy, walk.dfy | Strings, Seqs, Paths, Walk | Go's `strings`, `strconv`, `sort` and `path/filepath`, written out with their laws |
| fs.dfy | FileUtils | utils/file.go, over an abstract file system |
| collector.dfy | Collector | syncer/collector.go |
| resolver.dfy | Resolver | syncer/resolver.go |
| syncer.dfy | Syncer | syncer/syncer.go |
| config.dfy | Config | config/config.go |
| detect.dfy | Detect | cmd/detect.go |
| mv.dfy | Move | cmd/mv.go |
| rm.dfy | Remove | cmd/rm.go |
| backup.dfy | Backup | cmd/backup.go |
| configcmd.dfy | ConfigCommand | cmd/config.go |

How the model represents the program's world:

- **File system.** A map from locations to nodes. A location is the list of
  names from `/`. A node is a file (bytes, permission bits, modification
  time) or a directory. The map is well formed: the root is a directory, and
  every ancestor of a stored node is a directory.
- **The `FileSystem` class.** It holds that map as a field and changes it in
  place. `CopyFile`, `RemoveFile`, `MoveFile`, `CopyDirExclude`,
  `DeleteEmptyFolders` and `EnsureDir` are methods with `modifies` clauses.
  Each states the new tree in terms of the old one.
- **Path strings.** They are read into locations through lexical `Clean`, `~`
  expansion and `PathOf`. The home directory is a parameter of the file
  system (`None` when it cannot be determined).
- **Times.** Integers in nanoseconds. The one-second window of the resolver is
  `Second = 1_000_000_000`.
- **Inputs.** Everything the program reads from the terminal or the clock is
  an input:
  - the answers to confirmation prompts;
  - the typed selections of `config`;
  - the backup timestamp;
  - the modification time given to copies (`now`).
- **Unpredictable I/O errors.** A full disk or a permission error is a `fault`
  input, one per operation.
- **Go map iteration order.** Where the program iterates over a Go map:
  - the resolver's `grouped` map;
  - map-format `paths`;
  - `ListGroups`;
  - the map-to-list conversion of `detect`.

  The model picks elements in an arbitrary order. Contracts state only facts
  that hold for every order, or facts about the sorted output.

In a few places some callers, tests or doc comments in the repository
disagree with the code they use. The model follows the definitions each time:

- `ResolveConflicts` takes a folder filter (syncer/resolver.go:27).
- `CollectFiles` takes no exclude patterns (syncer/collector.go:23).
- `SyncFiles` takes five parameters, including `force` (syncer/syncer.go:30).
- `GetUniqueRelPaths` returns first-occurrence order. Its doc comment says
  sorted, but the code does not sort (syncer/collector.go:144-157).

## Model

| member | source | states |
|---|---|---|
| Resolver.FirstNewest | syncer/resolver.go:98-104 | the index of the first candidate with the greatest modification time: nothing is newer, and every earlier candidate is strictly older |
| Resolver.FirstCheapest | syncer/resolver.go:116-123 | the index of the first candidate with the lowest priority number: nothing is cheaper, and every earlier candidate is strictly dearer |
| Resolver.DefaultWinner | syncer/resolver.go:93-127 | the winner of the default rule is one of the candidates |
| Resolver.CheapestOfRecent | syncer/resolver.go:106-124 | when some candidate is recent, the last loop picks the first candidate of lowest priority among the recent ones |
| Resolver.DefaultWinnerIsFirstCheapestRecent | syncer/resolver.go:99-126 | the default winner is the first candidate of lowest priority among those modified less than a second before the newest |
| Resolver.DefaultWinnerNewestAlone | syncer/resolver.go:99-126 | when every other candidate is at least a second older than the newest, the newest wins whatever its priority |
| Resolver.NewestIgnoresPriority | syncer/resolver.go:131-145 | the modification-time rule decides from the times alone: candidates with the same times yield the same position whatever their priorities |
| Resolver.ResolveConflict | syncer/resolver.go:93-127 | the three loops of resolveConflict compute the default winner |
| Resolver.RecentCandidates | syncer/resolver.go:106-113 | the candidates within a second of the latest, or equal to it, in order |
| Resolver.CheapestCandidate | syncer/resolver.go:116-124 | the loop over the recent candidates returns the first of lowest priority number |
| Resolver.ResolveConflictByModTime | syncer/resolver.go:131-145 | the loop returns the first newest candidate |
| Resolver.IsFileInFilteredFolder | syncer/resolver.go:148-164 | true exactly when, for some folder with one trailing "/" dropped, the path equals it or starts with it plus "/"; false for an empty filter |
| Resolver.ResolveConflicts | syncer/resolver.go:27-89 | an error exactly for empty input; otherwise one resolved entry per distinct relative path, one conflict per path held by two or more files with the whole group as candidates and the winner as resolved, both lists strictly ascending by path |
| Resolver.ResolveGroups | syncer/resolver.go:33-76 | after the loop over the groups every relative path has been resolved and every contested one recorded as a conflict |
| Resolver.ResolveGroup | syncer/resolver.go:40-75 | one group: a single file is resolved as it is with no conflict; several files give the chosen winner and one conflict |
| Resolver.SortedResolution | syncer/resolver.go:78-86 | sorting the two lists by relative path turns the loop's output into the specified resolution |
| Resolver.ResolutionUnique | syncer/resolver.go:39-86 | the output does not depend on the order the grouped map is visited in: two results meeting the specification are equal |
| Resolver.ConflictWinnerEmitted | syncer/resolver.go:63-74 | the winner of every conflict is among the resolved entries |
| Resolver.SingleFileEmitted | syncer/resolver.go:40-48 | a file alone at its path is resolved with its own path, absolute path, project and priority, and no conflict names that path |
| Resolver.ResolutionCounts | syncer/resolver.go:214-226 | the resolved count is the number of distinct paths, the conflict count the number of contested paths, and HasConflicts holds exactly when some path is contested |
| Collector.GroupFilesByRelPath | syncer/collector.go:134-142 | the keys are exactly the relative paths present, and each group is the input's files with that path, in input order |
| Collector.GroupsPartition | syncer/collector.go:134-142 | a file is in the group of a path exactly when it has that path, and a path has a group exactly when some file has it |
| Collector.FirstOccurrences | syncer/collector.go:145-157 | every distinct relative path once, and nothing else |
| Collector.GetUniqueRelPaths | syncer/collector.go:145-157 | the loop with its seen map returns the paths in first-occurrence order |
| Collector.FilterFilesByProject | syncer/collector.go:160-170 | the order-preserving subsequence of the files of exactly that project |
| Collector.NormalizePath | syncer/collector.go:173-179 | one trailing "/" is removed when present, and nothing else changes |
| Collector.Info | syncer/collector.go:83-98 | a record carries the project's alias and priority and the file's modification time |
| Collector.CollectableSet | syncer/collector.go:63-81 | the walk reports the files strictly below the root that have no directory named "bk" between the root and them |
| Collector.CollectFromProject | syncer/collector.go:44-108 | an error for a missing .claude path or one that is not a directory; otherwise one record per reported file, in walk order |
| Collector.CollectFiles | syncer/collector.go:23-41 | the concatenation, in project order, of the files of every project that could be collected; an error exactly when that is empty |
| Collector.ProjectRecords | syncer/collector.go:63-98 | every collected record names a file that exists below the project's root at its slash-separated relative path, with no "bk" directory on the way, with the right absolute path, alias, priority and time |
| Collector.InfoRecord | syncer/collector.go:84-98 | the relative path of a record splits back into the names leading from the root to the file |
| Collector.NothingCollected | syncer/collector.go:26-38 | when every project fails to collect, nothing is collected, so CollectFiles errs |
| Collector.CollectedAppend | syncer/collector.go:26-34 | collection is per project: the files of two lists of projects are the files of each, concatenated |
| Syncer.DetectOverwrites | syncer/syncer.go:35-52 | the overwrite list of the existing tree, computed before anything is copied |
| Syncer.ProjectOverwrites | syncer/syncer.go:43-51 | the inner loop lists, in order, the resolved files whose destination in the project exists |
| Syncer.WarningsSound | syncer/syncer.go:43-51 | each warning of a project names a resolved file whose destination exists |
| Syncer.WarningsComplete | syncer/syncer.go:43-51 | each resolved file whose destination exists in a project gets a warning |
| Syncer.OverwritesSound | syncer/syncer.go:36-52 | each warning names a project whose .claude directory exists and one of its existing destinations |
| Syncer.OverwritesComplete | syncer/syncer.go:36-52 | each existing destination in a project whose .claude directory exists is warned about |
| Syncer.Skipped | syncer/syncer.go:98-103 | a skipped project has a non-empty reason, zero counters and no errors |
| Syncer.DryResultMeaning | syncer/syncer.go:99-127 | a dry run skips exactly the projects without a .claude directory; otherwise new plus overwritten is the number of resolved files, nothing fails, and the overwritten ones are exactly the warned ones |
| Syncer.DryResults | syncer/syncer.go:79-86 | one dry-run result per project |
| Syncer.DryCount | syncer/syncer.go:106-127 | a dry-run count of a project: nothing skipped or failed, new plus overwritten is the number of resolved files |
| Syncer.DryCountWarnings | syncer/syncer.go:106-127 | the dry run's overwritten count equals the number of warnings for that project |
| Syncer.OutcomesAddUp | syncer/syncer.go:129-150 | every copy ends as created, overwritten or failed, so the three counts add up to the number of copies |
| Syncer.SyncToProject | syncer/syncer.go:90-153 | skipped exactly when the .claude directory is missing, then with no change; a dry run counts from what exists and changes nothing; a real run copies every file in turn, a failure not stopping the rest, and counts each as new or overwritten by pre-copy existence or as failed with one error |
| Syncer.CountAll | syncer/syncer.go:106-127 | the dry-run loop counts existing destinations as overwritten and the others as new |
| Syncer.CopyAll | syncer/syncer.go:106-150 | the real-run loop: one copy per resolved file, in order, each starting from the tree the previous one left, with counters that tally the outcomes |
| Syncer.CopyOne | syncer/syncer.go:129-149 | one copy changes the tree as CopyFile does and bumps exactly one counter: failed with an error recorded, overwritten exactly when FileExists found the destination before the copy, new otherwise |
| Syncer.SyncFiles | syncer/syncer.go:30-87 | "no files to sync" for no resolved files; "sync cancelled by user" when overwrites exist and the user declines outside dry-run and force; success exactly otherwise; an error or a dry run leaves the tree unchanged; one counted result per project in order; dry-run results as specified; a real run syncs project after project, each from the tree the previous one left, as SyncToProject states |
| Syncer.SyncAll | syncer/syncer.go:79-86 | one result per project, in order, counted; a dry run changes nothing and gives the dry-run results; a real run chains the projects' trees, each project skipped with no change exactly when its .claude directory is missing from the tree it meets, and otherwise every file copied in turn and counted |
| Syncer.LaterTargetsKept | syncer/syncer.go:129-149 | with distinct destinations, the copies before a file's own leave its destination as it was at the start of the run, or put at most a directory where there was nothing |
| Syncer.TurnsLikeDry | syncer/syncer.go:129-149 | with distinct destinations, each different from its source, a successful copy counts as overwritten exactly when FileExists would have found its destination at the start of the run, and that destination was not a directory |
| Syncer.TurnsFill | syncer/syncer.go:129-149 | after a run in which every copy onto a different location succeeds, every destination exists, and so does everything that existed before |
| Syncer.TallyLikeDry | syncer/syncer.go:106-150 | outcomes that overwrite exactly where the dry run sees an existing destination count the same new and overwritten files |
| Syncer.CountsLikeDry | syncer/syncer.go:106-150 | a real run of one project whose copies never fail and overwrite exactly the destinations present at the start yields the dry run's result on that start |
| Syncer.SyncedLikeDry | syncer/syncer.go:90-153 | a real run of one project with no failed copy, distinct destinations and no file copied onto itself gives the very result the dry run on the starting tree reports; a dry run right after it reports every file as overwritten |
| Syncer.DryCountAll | syncer/syncer.go:106-127 | when every destination exists, the dry run counts every file as overwritten |
| Syncer.Totals | syncer/syncer.go:156-176 | successful and skipped projects are at most all projects |
| Syncer.GetSyncSummary | syncer/syncer.go:156-176 | the summary loop accumulates exactly the totals Totals defines, which SummaryAgrees relates to the other counts |
| Syncer.FailedProjects | syncer/syncer.go:198-206 | at most the number of results, and zero exactly when no result failed |
| Syncer.CountFailedProjects | syncer/syncer.go:198-206 | the loop counts the projects with failures |
| Syncer.HasErrors | syncer/syncer.go:245-252 | true exactly when some result has a failure |
| Syncer.GetTotalFiles | syncer/syncer.go:255-261 | the sum of new and overwritten files over all results |
| Syncer.SummaryAgrees | syncer/syncer.go:156-261 | for counted results the summary's new plus overwritten is GetTotalFiles, no failed file means no failed project, and successful plus skipped plus failed projects is every project |
| Config.PriorityIndex | config/config.go:128-131 | the 1-based index of the last occurrence of a key in the priority list, 0 when absent |
| Config.PriorityForRange | config/config.go:126-141 | every priority from a list lies in 1..len+1, and is len+1 exactly when neither alias nor path is listed |
| Config.AliasDecides | config/config.go:133-137 | a listed alias takes the position of its last occurrence, before the path is looked at |
| Config.GetProjectPaths | config/config.go:92-150 | a format other than map or list, or a non-string path, is an error; a map gives one project per entry aliased by its key; a list one per element, in order, aliased by its base name; priorities come from the list, or are 1..n by position |
| Config.ProjectsOfMap | config/config.go:97-108 | success exactly when every value is a string, then one project per entry with distinct aliases |
| Config.ProjectsOfList | config/config.go:109-120 | success exactly when every element is a string, then one project per element in order with its base name as alias |
| Config.AssignPriorities | config/config.go:125-147 | the same projects in the same order, with priorities from the list or by position |
| Config.PriorityMap | config/config.go:128-131 | the map holds exactly the listed keys, each at its last position plus one |
| Config.ByPriorityMap | config/config.go:133-141 | each project gets its alias's priority, else its path's, else len+1 |
| Config.ByPosition | config/config.go:142-147 | each project gets its 1-based position |
| Config.Configuration.GetGroup | config/config.go:74-80 | the named group, and an error exactly when there is none |
| Config.Configuration.ListGroups | config/config.go:83-89 | every group name exactly once |
| FileUtils.StripClaude | utils/file.go:333-335 | exactly the text after a leading ".claude/", then after one more leading ".claude\\" if present; after a leading ".claude\\" alone when ".claude/" is absent; unchanged when neither leads |
| FileUtils.ValidateAndNormalizePath | utils/file.go:309-350 | an accepted path yields the cleaned remainder after the ".claude" prefix, non-empty, relative and clean; blank input, a "..", or a missing ".claude/" or ".claude\\" prefix is an error |
| FileUtils.ValidateAccepts | utils/file.go:309-350 | a path is accepted exactly when, once trimmed, it has no "..", loses a ".claude/" or ".claude\\" prefix, leaves something after it, and does not clean to an absolute path |
| FileUtils.FileSystem.CopyFile | utils/file.go:15-68 | copying onto itself does nothing; a missing source, a blocked parent or a directory at the destination is an error with no change; otherwise the destination, with its parents, holds the source's bytes and mode |
| FileUtils.FileSystem.RemoveFile | utils/file.go:166-179 | a path FileExists does not find, missing or expanding to "", succeeds with no change; otherwise the path and all below it are removed, and an I/O error is reported |
| FileUtils.FileSystem.MoveFile | utils/file.go:197-212 | the destination's parents are created, then the source is renamed as os.Rename does on Unix (OsRename); a failed rename leaves only the created parents |
| FileUtils.FileSystem.Rename | utils/file.go:207-209 | the rename succeeds exactly when OsRename does, giving its tree; a failed one changes nothing |
| FileUtils.OsRename | utils/file.go:207-209 | an existing directory as the new name is refused (EEXIST) unless the two names are different strings for the same file; anything that changes the tree is a rename(2) of a file over a file or onto a free name, with no I/O error; onto a free name the source's subtree moves there |
| FileUtils.MovedSourceToDestination | utils/file.go:207-209 | after a rename the source is gone and every node of its subtree stands at the same place below the destination |
| FileUtils.FileSystem.CopyDirExclude | utils/file.go:111-163 | a source that is not a directory, or a destination whose path is blocked by a file, is an error with no change; otherwise the destination is created first, and a destination the copy would reach inside the source, a clash or an I/O error is an error that changes nothing but nodes along or below the destination; else every node below the source that no excluded directory name prunes is copied to the same place below the destination |
| FileUtils.CopyTreeOutside | utils/file.go:113-163 | the copy changes nothing outside the destination and adds nodes only along or below it |
| FileUtils.CopyTreeComplete | utils/file.go:142-159 | every node that is not pruned arrives below the destination, a directory as a directory and a file with its bytes and mode |
| FileUtils.CopyTreePrunes | utils/file.go:142-146 | no copy lies below a copied directory with an excluded name, at any depth |
| FileUtils.FreshTargetFits | utils/file.go:113-163 | copying into a destination with nothing below it never clashes |
| FileUtils.FileSystem.DeleteEmptyFolders | utils/file.go:354-375 | a missing root or a non-directory is an error with no change; otherwise every directory at or below the root without a file below it is removed and listed once, children before parents |
| FileUtils.FileSystem.SweepEmpty | utils/file.go:379-412 | the recursive sweep removes exactly the directories without files below them, in post-order |
| FileUtils.FileSystem.EnsureDir | utils/file.go:215-223 | the directory and its parents exist afterwards, or an error with no change when a file blocks the way |
| FileUtils.FoundIn | utils/file.go:225-229 | FileExists finds any location other than the root exactly when it is stored |
| FileUtils.LocateEmpty | utils/file.go:225-229 | a path that expands to nothing names the root location, which is why FileExists tests the expansion itself before the tree |
| FileUtils.MkdirAllAgain | utils/file.go:215-223 | creating the same directories again is allowed and changes nothing |
| Paths.ExpandHome | syncer/collector.go:111-131 | a path not starting with "~", or any path without a known home, is unchanged; "~" alone is the home directory |
| Paths.ExpandHomeUtils | utils/file.go:275-290 | a path not starting with "~", or any path without a known home, is unchanged; "~" alone is the home directory; "~" followed by more is the home directory joined with the rest |
| Paths.ExpandHomeAgree | cmd/mv.go:219-238 | with a non-empty home directory the expandPath of syncer and cmd and that of utils give the same string for every path, "~/x" and "~x" alike |
| Detect.DropCR | cmd/detect.go:145-147 | the scanner drops one trailing carriage return and nothing else |
| Detect.ScanLines | cmd/detect.go:145-147 | no scanned line holds a newline |
| Detect.ScanJoinedLines | cmd/detect.go:145-147 | scanning newline-terminated lines gives those lines back |
| Detect.WorktreePaths | cmd/detect.go:144-154 | the paths are the suffixes, in order, of the scanned lines that start with "worktree " |
| Detect.ParseLines | cmd/detect.go:146-152 | the loop keeps, in order, the suffix of every "worktree " line and ignores the rest |
| Detect.WorktreePathsExactly | cmd/detect.go:146-152 | a path is reported exactly when the line "worktree " plus it is present |
| Detect.WorktreePathsAppend | cmd/detect.go:146-152 | parsing two blocks of lines gives the paths of the first, then those of the second |
| Detect.AddPathsToGroup | cmd/detect.go:174-218 | an absent group is created holding exactly the paths; a list gets them appended; a map becomes its values followed by them, of length map plus new; any other format is an error with no change; no other group and no priority list changes |
| Detect.ExtendPaths | cmd/detect.go:185-212 | the list a group's paths become for each accepted format |
| Detect.MapValues | cmd/detect.go:194-197 | every value of the map once, in the order of some listing of its keys |
| Detect.DirectoryNoun | cmd/detect.go:259-264 | pluralize after "director" gives "directory" for 1 and "directories" otherwise |
| Detect.AddedNounGarbled | cmd/detect.go:120 | the success message as written reads "pathy" for 1 path and "pathies" for 2 |
| Detect.PathNoun | cmd/detect.go:120 | the noun the message means: "path" exactly for 1, "paths" otherwise |
| Move.MoveInProject | cmd/mv.go:173-216 | a source FileExists does not find skips with "source not found", a destination it finds skips with "destination already exists", each with no change; a dry run reports a move with no change; a real move creates the destination's parents and renames the source's subtree there as MoveFile does, or sets the error leaving at most the created parents |
| Move.MovedMeaning | cmd/mv.go:184-216 | in a real run onto a destination other than the root, a project is moved exactly when the source exists, the destination does not, its parents can be made, it does not lie inside the source and no I/O error strikes; then the source is gone and the destination holds the source's node |
| Move.FindSources | cmd/mv.go:69-82 | the projects that hold the source and those that do not, each in order |
| Move.RunMv | cmd/mv.go:36-170 | a source or destination that cleans to "bk" is refused with no change; no project with the source, or a declined prompt, ends without error or change; otherwise the projects are moved one after another, each from the tree the previous one left, as MoveInProject states, counted once, and an error exactly when a move failed; a dry run changes nothing |
| Move.MoveChecked | cmd/mv.go:69-167 | runMv after the guard on "bk", as RunMv states |
| Move.MoveAll | cmd/mv.go:128-131 | the projects in order, each moved from the tree the previous one left as MoveInProject states; a dry run changes nothing and fails nothing |
| Move.MovedAllDecided | cmd/mv.go:128-153 | every project has its own result, which is exactly one of moved, skipped and failed |
| Move.DryMoveFailsNone | cmd/mv.go:128-131 | a dry run over all projects leaves the tree as it was and fails no project |
| Move.CountResults | cmd/mv.go:135-153 | the counts of moved, skipped and failed results |
| Remove.Targets | cmd/rm.go:61-70 | one target per project, with existence read from the tree |
| Remove.BuildTargets | cmd/rm.go:61-70 | the first loop records every target and whether it exists before anything is deleted |
| Remove.CountPresent | cmd/rm.go:72-84 | the number of existing targets |
| Remove.RunRm | cmd/rm.go:59-150 | no existing target means nothing deleted and no error; without force or dry-run any answer but "y"/"Y" cancels with no change; otherwise missing targets are skipped, deleted plus skipped plus failed is the number of projects, the command errs exactly when a deletion failed, a dry run counts the existing targets and deletes nothing, and without an I/O error the new tree is the old one minus exactly the subtrees of the existing targets |
| Remove.DeleteTargets | cmd/rm.go:113-133 | the deletion loop: missing targets are skipped, existing ones deleted or failed, a dry run changes nothing, and without an I/O error exactly the existing targets' subtrees are removed |
| Remove.DeleteAt | cmd/rm.go:122-128 | one pass of the real-run deletion loop on an existing target: without an I/O error it succeeds, the target's location is gone, and a tree pruned of the earlier targets becomes one pruned of this one too |
| Remove.DeleteOne | cmd/rm.go:122-128 | one deletion as RemoveFile does it: a target FileExists does not find, absent or expanding to "", succeeds with no change; an existing one is removed with everything below it; an I/O error changes nothing outside its subtree |
| Remove.Pruned | cmd/rm.go:113-133 | what the deletions leave: every node of the old tree, with its content, not at or below an existing target |
| Remove.PrunedSkip | cmd/rm.go:114-119 | a missing target removes nothing |
| Remove.PrunedAfterDelete | cmd/rm.go:122-128 | removing an existing target as RemoveFile does, from the tree pruned of the earlier targets, gives the tree pruned of this target too |
| Remove.PrunedStep | cmd/rm.go:122-128 | each existing target removes its own subtree from what the earlier ones left |
| Backup.CountFiles | cmd/backup.go:177-189 | walking the path as given, with no `~` expansion, the number of non-directory nodes at or below it; an empty or missing path is an error with nothing counted |
| Backup.WalkedBackup | cmd/backup.go:177-189 | a backup path that `~` expansion leaves as it is gets walked where the backup was written, so the count is of the files below it |
| Backup.Skip | cmd/backup.go:125-135 | a skipped result with its reason |
| Backup.Fail | cmd/backup.go:150-159 | a failed result |
| Backup.BackupProject | cmd/backup.go:117-174 | a .claude path FileExists does not find, or a non-directory, is skipped with its reason and no change; a dry run succeeds with no files and no change; otherwise the backup directory is created and everything not under the "bk" directory is copied into it, with the files found by walking its path as given counted, unless an I/O error or a clash fails it; nothing outside the backup directory and its ancestors changes |
| Backup.CopyToBackup | cmd/backup.go:149-173 | the creating, copying and counting part of backupProject, as BackupProject states |
| Backup.BackupLocation | cmd/backup.go:138 | the backup goes to the .claude directory's bk directory, under the timestamp's own name |
| Backup.BackupSkipsBk | cmd/backup.go:155-159 | the copy reads nothing inside the bk directory: neither earlier backups nor the new one |
| Backup.BackupHoldsNoBk | cmd/backup.go:155-159 | a backup holds no bk entry at its top level, so backups never nest |
| Backup.FreshBackupFits | cmd/backup.go:150-159 | a backup directory with nothing below it never clashes with the copy, so a fresh backup without I/O error succeeds |
| Backup.BackupNotReached | cmd/backup.go:138-159 | the backup directory lies inside bk, so the copy of the .claude directory never reaches its own destination |
| Backup.FreshBackupSucceeds | cmd/backup.go:138-173 | a real backup of an existing .claude directory into a fresh timestamp directory succeeds unless an I/O error strikes |
| Backup.CopiedHolds | cmd/backup.go:149-173 | after a successful backup copy, the backup directory exists and holds, at the same relative place, every node of the .claude directory outside bk, each copied as CopyDirExclude copies it |
| Backup.BackupHolds | cmd/backup.go:149-173 | a successful backup holds, below the backup directory, every node of the .claude directory outside bk: a directory as a directory, a file with its bytes and mode |
| Backup.BackedUpAllDecided | cmd/backup.go:69-97 | every project has its own result, which is exactly one of backed up, skipped and failed |
| Backup.DryBackupFailsNone | cmd/backup.go:69-75 | a dry run over all projects leaves the tree as it was and fails no project |
| Backup.RunBackup | cmd/backup.go:39-114 | the projects are backed up one after another, each from the tree the previous one left and each into its own bk directory under the same timestamp, as BackupProject states; the three counts add up to the number of projects; an error exactly when a backup failed; a dry run changes nothing and fails nothing |
| Backup.BackupAll | cmd/backup.go:69-75 | the projects in order, each backed up from the tree the previous one left under the one timestamp; a dry run changes nothing and fails nothing |
| Backup.CountResults | cmd/backup.go:79-97 | the counts of backed-up, skipped and failed results |
| ConfigCommand.SelectNumber | cmd/config.go:576-589 | a blank answer cancels, a number in 1..n selects that item, anything else is an invalid selection |
| ConfigCommand.SelectPrintedNumber | cmd/config.go:568-589 | typing the number printed in front of an item selects that item |
| ConfigCommand.AtoiItoa | cmd/config.go:585 | strconv.Atoi reads back what %d prints |
| ConfigCommand.FirstBadFrom | cmd/config.go:639-645 | the position of the first token that is not a project number in 1..n, none exactly when all are |
| ConfigCommand.Indices | cmd/config.go:638-645 | one 0-based index per token |
| ConfigCommand.FirstRepeatFrom | cmd/config.go:647-654 | the position of the first index already selected before, none exactly when there is no repeat |
| ConfigCommand.NoRepeatIsDistinct | cmd/config.go:647-654 | the duplicate check passes exactly when all selected indices differ |
| ConfigCommand.AliasesAt | cmd/config.go:656-660 | one alias per selected index |
| ConfigCommand.ParsePriorityOrder | cmd/config.go:621-660 | the parser of the typed priority order: blank keeps the order, "cancel" in any case aborts, then the token checks |
| ConfigCommand.CheckTokens | cmd/config.go:634-660 | a bad token, then a repeated number, is rejected in that order; otherwise the selected aliases in entered order |
| ConfigCommand.SelectIndices | cmd/config.go:638-645 | the first bad token is reported; otherwise the 0-based indices |
| ConfigCommand.FindDuplicate | cmd/config.go:647-654 | the first repeated index is reported; otherwise none |
| ConfigCommand.AliasesOf | cmd/config.go:656-660 | the aliases of the selected projects in entered order |
| ConfigCommand.OrderIsSelection | cmd/config.go:634-660 | an accepted order names listed projects only, each once, at most as many as are listed |
| ConfigCommand.SelectsAll | cmd/config.go:647-660 | an accepted order of n numbers over n projects names every project |
| ConfigCommand.TypedOrder | cmd/config.go:616-660 | typing distinct printed numbers separated by commas is accepted and gives those projects' aliases in that order |
| ConfigCommand.OnlyCommas | cmd/config.go:622-636 | an answer of only commas is not blank, so it is accepted as an empty order |
| ConfigCommand.SetPriorityMode | cmd/config.go:548-669 | no argument is the interactive mode, one argument is an error, more give the group and the aliases args[1:] |
| ConfigCommand.AddProjectArgs | cmd/config.go:305-407 | no argument is interactive, three are group, alias and path, any other count is an error naming it |
| ConfigCommand.AddFromArguments | cmd/config.go:391-402 | argument mode adds to the named group, and a dry run only reports |
| ConfigCommand.AddInteractively | cmd/config.go:306-389 | an invalid selection, a blank new group name, a blank alias or a blank path is rejected; a blank selection creates the named group; every answer is trimmed; a dry run only reports |

## Left out

- Terminal output, verbose logging, `PrintSyncResults`, the summary strings and the body of `utils.Confirm`: answers are inputs and messages are not modelled.
- cobra wiring, `cmd/root.go`, `cmd/dcs/main.go` and the global flag variables: `dryRun`, `force` and the arguments are parameters.
- Loading and saving the configuration (`config.Load`, `getConfigPath`, `saveConfig`, `loadOrCreateConfig`): a configuration is the decoded value. The mutators `AddGroup`, `AddProject`, `RemoveProject`, `SetPriority` and `Save` are not defined in the sources modelled, so add-project and set-priority end at the decision of what to change.
- The `config` sub-commands `list`, `add-group`, `remove-group` and `remove-project`: only the priority-order parser and the argument and selection checks of `set-priority` and `add-project` are modelled.
- Detect.WorktreePaths: scans lines of any length, whereas bufio.Scanner stops at a line longer than its 64 KiB token limit and getWorktreePaths never reads scanner.Err(), so such a line silently ends the list in the source.
- Running `git` in `getWorktreePaths` and the directory search of `runDetect`: only the parser of the porcelain output and `addPathsToGroup` are modelled.
- `FormatSize` (floating-point formatting), `FileHash` (SHA-256 from a library), `CopyDir`, `RemoveDir` and `Confirm`.
- The wall-clock timestamp of `runBackup` and the modification time of copies: both are inputs.
- Exclude-glob filtering (`shouldExclude`): it is not implemented in the sources modelled.
- `cmd/init.go`, `cmd/clean.go`, `cmd/list.go` and `cmd/push.go`: these are interactive or orchestration code outside the core.
- `filepath.Abs` and the working directory: a relative path is read from the root. Windows separators are not modelled; the `".claude\\"` prefix is treated as characters.
- Directories have no permission bits, and only bytes, mode and modification time of files are modelled.
- `os.Stat` failures other than "does not exist" and Walk callback errors are not modelled. The root of the file system is never removed.
- FileUtils.FileSystem.CopyFile: after an I/O error it states only that nothing but the destination and its ancestors changed, not how much was written.
- FileUtils.FileSystem.RemoveFile: after an I/O error it states only that nothing outside the removed subtree changed.
- FileUtils.FileSystem.CopyDirExclude: the copy is stated as the resulting tree. The order of the recursive walk is not modelled, so after a clash or an I/O error the contract states only that nothing outside the destination's path and subtree changed. The copy reads the source as it stood once the destination was created, so a destination that is an ancestor of the source, where Go may read back what it has just written, is not modelled.
- FileUtils.OsRename: "the same file" is the same location, since the model has no symbolic links, hard links or case-insensitive names.
- Paths that expand to the empty string: FileExists, IsDirectory and the .claude check of collectFromProject report them missing, as os.Stat("") fails, and RemoveFile, guarded by FileExists, leaves the tree as it was; CopyFile, MoveFile, EnsureDir and CopyDirExclude read them as the root, where os.Open, os.MkdirAll, os.Create and os.Rename of "" would fail instead.
- Detect.AddPathsToGroup: a decoded configuration whose groups map is nil (a file without `groups:`) makes Go panic at cmd/detect.go:178 when the group is absent, since it assigns into a nil map; the model has no nil map and creates the group.
- FileUtils.FileSystem.DeleteEmptyFolders: `os.ReadDir` lists children sorted by name, but the model visits them in an arbitrary order, so the list of deleted directories is stated as a set in post-order, not as one sequence. Entries are locations, not joined strings.
- FileUtils.FileSystem.SweepEmpty: the same arbitrary sibling order as DeleteEmptyFolders. The error paths of `deleteEmptyFoldersRecursive` (unreadable directories) are not modelled.
- Backup.BackupProject: a failed creation or copy is stated only as a failed result that changes nothing outside the backup directory and its ancestors.
- Backup.CopyToBackup: as BackupProject on failure. A failed count of files gives 0, as in the source; after a successful copy it can fail only for a backup path that still starts with `~` once expanded (a home directory whose path starts with `~`), since countFiles does not expand it again.
- Remove.RunRm: with I/O errors it states only that failed targets are counted and nothing absent reappears.
- Config.Configuration.ListGroups: Go map order, so the order of the names is not stated.
- Config.GetProjectPaths: for map-format paths the order of the projects is Go map order and is not stated; only the set of entries is.
- Detect.MapValues: Go map order, so only that the values follow some listing of the keys is stated.
- Resolver.DefaultWinner: its own contract only places the winner among the candidates; the rule is stated by DefaultWinnerIsFirstCheapestRecent and DefaultWinnerNewestAlone.
- Paths.ExpandHome: the joined cases ("~/x", "~x") are stated through ExpandHomeAgree, not in its own contract.
- Syncer.Totals: its contract bounds the project counts; the relation of its totals to the other summaries is in SummaryAgrees.
- Walk order: `filepath.Walk` visits names in sorted order, a directory before what lies below it. The model defines that order (module Walk) from its documented behaviour, and Collector.CollectFromProject follows it.

## Findings

| source | as written | input that shows it | evidently intended | confidence | as-written member | corrected member |
|---|---|---|---|---|---|---|
| cmd/detect.go:120 | the success message puts pluralize's ending, meant for "director", after "path" | one or two detected directories: the message reads "Added 1 pathy" or "Added 2 pathies" | "path" for one and "paths" for several | not executed | Detect.AddedNounGarbled | Detect.PathNoun |
