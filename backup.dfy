/** Command `backup`: copying each project's .claude directory into a
    timestamped directory below its own `bk` directory, leaving `bk` itself
    out of the copy. The configuration has already been read: the command
    starts from the group's projects. The timestamp (time.Now formatted as
    "20060102-150405") and the modification time of the copies are inputs,
    and `fault(i)` stands for an I/O error while copying the i-th project. */
module Backup {
  import opened Strings
  import opened Seqs
  import opened Paths
  import opened FileUtils
  import Config

  datatype BackupResult = BackupResult(project: string, success: bool, skipped: bool, skipReason: string,
                                       error: Option<string>, fileCount: nat)

  /** The directory, directly inside .claude, that holds the backups. */
  const BackupDirName := "bk"

  /** The project's .claude directory, with `~` expanded. */
  function ClaudeDir(p: Config.ProjectPath, home: Option<string>): string {
    ExpandHome(p.path, home)
  }

  /** Where the project's backup taken at `timestamp` goes. */
  function BackupDir(p: Config.ProjectPath, home: Option<string>, timestamp: string): string {
    Join3(ClaudeDir(p, home), BackupDirName, timestamp)
  }

  // ---------------------------------------------------------------------------
  // countFiles
  // ---------------------------------------------------------------------------

  /** The files at or below `d`: what a walk from `d` counts. */
  function FilesBelow(t: Tree, d: Path): set<Path> {
    set q | q in t && d <= q && t[q].File?
  }

  /** The files among the locations `s`. */
  function FilesIn(t: Tree, s: set<Path>): set<Path> {
    set q | q in s && q in t && t[q].File?
  }

  lemma FilesInRemove(t: Tree, s: set<Path>, q: Path)
    requires q in s && q in t
    ensures |FilesIn(t, s - {q})| == |FilesIn(t, s)| - (if t[q].File? then 1 else 0)
  {
    if t[q].File? {
      assert FilesIn(t, s - {q}) == FilesIn(t, s) - {q};
    } else {
      assert FilesIn(t, s - {q}) == FilesIn(t, s);
    }
  }

  /** What countFiles reports for `dir` in `t`: filepath.Walk takes the
      path as given, with no `~` expansion, and its first Lstat fails on
      an empty or missing path, leaving nothing counted. */
  function Walked(t: Tree, dir: string): nat {
    if dir == "" || PathOf(dir) !in t then 0 else |FilesBelow(t, PathOf(dir))|
  }

  /** countFiles: walking from `dir` as given, every node that is not a
      directory is counted once; an empty or missing `dir` is an error
      with nothing counted. */
  method CountFiles(fs: FileSystem, dir: string) returns (count: nat, err: Option<string>)
    ensures dir == "" || PathOf(dir) !in fs.tree ==> err.Some? && count == 0
    ensures dir != "" && PathOf(dir) in fs.tree ==> err.None? && count == |FilesBelow(fs.tree, PathOf(dir))|
  {
    var d := PathOf(dir);
    if dir == "" || d !in fs.tree {
      return 0, Some("no such file or directory");
    }
    var todo := set q | q in fs.tree && d <= q;
    assert FilesIn(fs.tree, todo) == FilesBelow(fs.tree, d);
    count := 0;
    while todo != {}
      invariant todo <= fs.tree.Keys
      invariant count + |FilesIn(fs.tree, todo)| == |FilesBelow(fs.tree, d)|
      decreases |todo|
    {
      var q :| q in todo;
      FilesInRemove(fs.tree, todo, q);
      if fs.tree[q].File? {
        count := count + 1;
      }
      todo := todo - {q};
    }
    assert FilesIn(fs.tree, todo) == {};
    err := None;
  }

  // ---------------------------------------------------------------------------
  // backupProject
  // ---------------------------------------------------------------------------

  predicate IsSkipped(r: BackupResult) { r.skipped }
  predicate IsFailed(r: BackupResult) { !r.skipped && r.error.Some? }
  predicate IsBackedUp(r: BackupResult) { !r.skipped && r.error.None? && r.success }

  /** A result falls in exactly one of the three counts. */
  predicate Decided(r: BackupResult) {
    r.skipped || r.error.Some? || r.success
  }

  function Skip(alias: string, reason: string): (r: BackupResult)
    ensures IsSkipped(r) && r.skipReason == reason
  {
    BackupResult(alias, false, true, reason, None, 0)
  }

  function Fail(alias: string, msg: string): (r: BackupResult)
    ensures IsFailed(r)
  {
    BackupResult(alias, false, false, "", Some(msg), 0)
  }

  /** What backupProject does to the tree `t`, giving `t'` and the result
      `r`. A missing .claude directory, or one that is not a directory, is
      skipped with no change; a dry run succeeds with no file counted and
      no change. Otherwise the backup directory is created and everything
      below .claude that the exclusion of `bk` does not prune is copied
      into it, and the files below the backup directory, walked as its
      path reads, are counted; a
      backup directory that the copy itself would reach fails, as would a
      clash or an I/O error (`fault`), though the first cannot happen:
      the backup directory lies inside `bk`, which the copy prunes
      (BackupNotReached). Whatever happens, nothing changes
      outside the backup directory and the directories above it. */
  ghost predicate ProjectBackedUp(t: Tree, t': Tree, home: Option<string>, project: Config.ProjectPath,
                                  timestamp: string, dryRun: bool, now: int, fault: bool, r: BackupResult) {
    var c, b := Locate(ClaudeDir(project, home), home), Locate(BackupDir(project, home, timestamp), home);
    var found := Found(t, ClaudeDir(project, home), home);
    && r.project == project.alias && Decided(r)
    && (!found ==> r == Skip(project.alias, ".claude directory does not exist") && t' == t)
    && (found && t[c].File? ==> r == Skip(project.alias, "path is not a directory") && t' == t)
    && (found && t[c].Dir? && dryRun ==> r == BackupResult(project.alias, true, false, "", None, 0) && t' == t)
    && (found && t[c].Dir? && !dryRun ==> BackupCopied(t, t', c, b, now, fault, r))
    && (found && t[c].Dir? && !dryRun && IsBackedUp(r) ==> r.fileCount == Walked(t', BackupDir(project, home, timestamp)))
    && OnlyAlongOrBelow(t, t', b)
  }

  /** The copying part of backupProject, from the .claude directory `c`
      into the backup directory `b`. */
  ghost predicate BackupCopied(t: Tree, t': Tree, c: Path, b: Path, now: int, fault: bool, r: BackupResult) {
    && (!CanMkdirAll(t, b) ==> IsFailed(r) && t' == t)
    && (CanMkdirAll(t, b) ==>
          var t1 := MkdirAll(t, b);
          if !Copied(t1, c, [BackupDirName], b) && CopyFits(t1, c, b, [BackupDirName]) && !fault
          then IsBackedUp(r) && t' == CopyTree(t1, c, b, [BackupDirName], now)
          else IsFailed(r))
  }

  /** backupProject. */
  method BackupProject(fs: FileSystem, project: Config.ProjectPath, timestamp: string, dryRun: bool,
                       now: int, fault: bool) returns (r: BackupResult)
    requires fs.Valid()
    modifies fs
    ensures fs.Valid()
    ensures ProjectBackedUp(old(fs.tree), fs.tree, fs.home, project, timestamp, dryRun, now, fault, r)
  {
    var claudeDir := ClaudeDir(project, fs.home);
    if !fs.FileExists(claudeDir) {
      return Skip(project.alias, ".claude directory does not exist");
    }
    if !fs.IsDirectory(claudeDir) {
      return Skip(project.alias, "path is not a directory");
    }
    var backupDir := Join3(claudeDir, BackupDirName, timestamp);
    if dryRun {
      return BackupResult(project.alias, true, false, "", None, 0);
    }
    r := CopyToBackup(fs, project.alias, claudeDir, backupDir, now, fault);
  }

  /** The part of backupProject that changes the file system, once the
      .claude directory `claudeDir` is known to be a directory. */
  method CopyToBackup(fs: FileSystem, alias: string, claudeDir: string, backupDir: string, now: int, fault: bool)
      returns (r: BackupResult)
    requires fs.Valid()
    requires fs.Loc(claudeDir) in fs.tree && fs.tree[fs.Loc(claudeDir)].Dir?
    modifies fs
    ensures fs.Valid()
    ensures r.project == alias && Decided(r)
    ensures BackupCopied(old(fs.tree), fs.tree, fs.Loc(claudeDir), fs.Loc(backupDir), now, fault, r)
    ensures IsBackedUp(r) ==> r.fileCount == Walked(fs.tree, backupDir)
    ensures OnlyAlongOrBelow(old(fs.tree), fs.tree, fs.Loc(backupDir))
  {
    ghost var c, b, t0 := fs.Loc(claudeDir), fs.Loc(backupDir), fs.tree;
    var err := fs.EnsureDir(backupDir);
    if err.Some? {
      return Fail(alias, "failed to create backup directory");
    }
    MkdirAllAlong(t0, b);
    MkdirAllAgain(t0, b);
    ghost var t1 := fs.tree;
    err := fs.CopyDirExclude(claudeDir, backupDir, [BackupDirName], now, fault);
    AlongOrBelowTrans(t0, t1, fs.tree, b);
    if err.Some? {
      return Fail(alias, "failed to copy files");
    }
    assert b in fs.tree by {
      assert b == b[..|b|];
    }
    // a failed count is reported as 0, which is what CountFiles returns then
    var fileCount, countErr := CountFiles(fs, backupDir);
    r := BackupResult(alias, true, false, "", None, fileCount);
  }

  /** The backup directory `bk`/`ts` inside the .claude directory `c` is
      never reached by its own copy: the copy prunes `bk`. */
  lemma BackupNotReached(t: Tree, c: Path, ts: string)
    requires WellFormed(t) && CanMkdirAll(t, c + [BackupDirName, ts])
    ensures !Copied(MkdirAll(t, c + [BackupDirName, ts]), c, [BackupDirName], c + [BackupDirName, ts])
  {
    var b := c + [BackupDirName, ts];
    MkdirAllWellFormed(t, b);
    var j := |c| + 1;
    assert b[..j] == c + [BackupDirName];
    assert b[j - 1] == BackupDirName;
  }

  /** A backup into a backup directory at `bk`/`timestamp` inside the
      .claude directory, with nothing below it yet, succeeds unless an I/O
      error strikes. */
  lemma FreshBackupSucceeds(t: Tree, t': Tree, home: Option<string>, project: Config.ProjectPath,
                            timestamp: string, now: int, r: BackupResult)
    requires WellFormed(t)
    requires ProjectBackedUp(t, t', home, project, timestamp, false, now, false, r)
    requires var c, b := Locate(ClaudeDir(project, home), home), Locate(BackupDir(project, home, timestamp), home);
      && Found(t, ClaudeDir(project, home), home) && t[c].Dir? && CanMkdirAll(t, b)
      && b == c + [BackupDirName, timestamp] && forall q :: q in t ==> !(b < q)
    ensures IsBackedUp(r)
  {
    var c, b := Locate(ClaudeDir(project, home), home), Locate(BackupDir(project, home, timestamp), home);
    BackupNotReached(t, c, timestamp);
    FreshBackupFits(t, c, b, [BackupDirName]);
  }

  /** A backed-up project holds, below its backup directory, every node of
      its .claude directory that is not inside `bk`: a directory as a
      directory, a file with its bytes and mode. */
  lemma BackupHolds(t: Tree, t': Tree, home: Option<string>, project: Config.ProjectPath,
                    timestamp: string, now: int, fault: bool, r: BackupResult)
    requires ProjectBackedUp(t, t', home, project, timestamp, false, now, fault, r) && IsBackedUp(r)
    ensures var c, b := Locate(ClaudeDir(project, home), home), Locate(BackupDir(project, home, timestamp), home);
      && b in t'
      && forall q :: q in CopySet(MkdirAll(t, b), c, [BackupDirName]) ==>
           b + q[|c|..] in t' && t'[b + q[|c|..]] == CopyNode(MkdirAll(t, b)[q], c == b, now)
  {
    var c, b := Locate(ClaudeDir(project, home), home), Locate(BackupDir(project, home, timestamp), home);
    assert Found(t, ClaudeDir(project, home), home) && t[c].Dir?;
    CopiedHolds(t, t', c, b, now, fault, r);
  }

  /** A backup directory whose path `~` expansion leaves as it is (it
      does not start with `~`, or the home directory is unknown) is walked
      where the backup was written, so the count is of the files below
      it. */
  lemma WalkedBackup(t: Tree, home: Option<string>, bd: string)
    requires bd != "" && (bd[0] != '~' || home.None?) && Locate(bd, home) in t
    ensures Walked(t, bd) == |FilesBelow(t, Locate(bd, home))|
  {
  }

  lemma CopiedHolds(t: Tree, t': Tree, c: Path, b: Path, now: int, fault: bool, r: BackupResult)
    requires BackupCopied(t, t', c, b, now, fault, r) && IsBackedUp(r)
    ensures b in t'
    ensures forall q :: q in CopySet(MkdirAll(t, b), c, [BackupDirName]) ==>
              b + q[|c|..] in t' && t'[b + q[|c|..]] == CopyNode(MkdirAll(t, b)[q], c == b, now)
  {
    var t1 := MkdirAll(t, b);
    assert b == b[..|b|];
    CopyTreeComplete(t1, c, b, [BackupDirName], now);
  }

  /** MkdirAll creates only the directories along `p`. */
  lemma MkdirAllAlong(t: Tree, p: Path)
    ensures OnlyAlongOrBelow(t, MkdirAll(t, p), p)
  {
  }

  lemma AlongOrBelowTrans(t0: Tree, t1: Tree, t2: Tree, d: Path)
    requires OnlyAlongOrBelow(t0, t1, d) && OnlyAlongOrBelow(t1, t2, d)
    ensures OnlyAlongOrBelow(t0, t2, d)
  {
  }

  // ---------------------------------------------------------------------------
  // What a backup holds
  // ---------------------------------------------------------------------------

  /** The backup directory of a project whose .claude directory is the
      absolute `claudeDir` lies in the `bk` directory just inside it, under
      the timestamp's own name. */
  lemma BackupLocation(claudeDir: string, timestamp: string, home: Option<string>)
    requires IsAbs(claudeDir) && IsName(timestamp) && timestamp != ".."
    ensures Locate(Join3(claudeDir, BackupDirName, timestamp), home) == Locate(claudeDir, home) + [BackupDirName, timestamp]
  {
    var x := claudeDir + ['/'] + (BackupDirName + ['/'] + timestamp);
    Join3Parts(claudeDir, BackupDirName, timestamp);
    assert x[0] == '/';
    LocateClean(x, home);
    PathOfBackup(claudeDir, timestamp);
  }

  lemma Join3Parts(a: string, b: string, c: string)
    requires a != [] && b != [] && c != []
    ensures Join3(a, b, c) == Clean(a + ['/'] + (b + ['/'] + c))
  {
    var parts := [a, b, c];
    assert (if a == [] then [] else [a]) + (if b == [] then [] else [b]) + (if c == [] then [] else [c]) == parts;
    assert parts[1..] == [b, c] && parts[1..][1..] == [c];
    assert JoinWith([b, c], '/') == b + ['/'] + c;
    assert JoinWith(parts, '/') == a + ['/'] + (b + ['/'] + c);
  }

  /** Reading a cleaned absolute path gives the location of the path. */
  lemma LocateClean(x: string, home: Option<string>)
    requires IsAbs(x)
    ensures Locate(Clean(x), home) == PathOf(x)
  {
    var st := PathOf(x);
    assert Clean(x) == Render(st);
    PathOfRender(st);
  }

  lemma PathOfBackup(c: string, ts: string)
    requires IsName(ts) && ts != ".."
    ensures PathOf(c + ['/'] + (BackupDirName + ['/'] + ts)) == PathOf(c) + [BackupDirName, ts]
  {
    var y := c + ['/'] + (BackupDirName + ['/'] + ts);
    var names := Split(c, '/');
    var pc := CleanFrom(true, [], names);
    SplitBackup(c, ts);
    assert CleanFrom(true, [], names + [BackupDirName, ts]) == CleanFrom(true, pc, [BackupDirName, ts]) by {
      CleanFromAppend(true, [], names, [BackupDirName, ts]);
    }
    CleanFromNames(pc, BackupDirName, ts);
  }

  lemma SplitBackup(c: string, ts: string)
    requires IsName(ts)
    ensures Split(c + ['/'] + (BackupDirName + ['/'] + ts), '/') == Split(c, '/') + [BackupDirName, ts]
  {
    SplitAppend(c, BackupDirName + ['/'] + ts, '/');
    SplitAppend(BackupDirName, ts, '/');
    assert Split(BackupDirName, '/') == [BackupDirName];
    assert Split(ts, '/') == [ts];
  }

  /** Cleaning two proper names appends them. */
  lemma CleanFromNames(stack: seq<string>, a: string, b: string)
    requires IsName(a) && a != ".." && IsName(b) && b != ".."
    ensures CleanFrom(true, stack, [a, b]) == stack + [a, b]
  {
    assert [a, b][1..] == [b];
    assert CleanStep(true, stack, a) == stack + [a];
    assert [b][1..] == [];
    assert CleanFrom(true, stack + [a], [b]) == stack + [a] + [b];
  }

  /** The copy reads nothing inside the `bk` directory of the copied
      directory `c`: neither earlier backups nor the new one. */
  lemma BackupSkipsBk(t: Tree, c: Path)
    requires WellFormed(t)
    requires c + [BackupDirName] in t && t[c + [BackupDirName]].Dir?
    ensures forall q :: q in CopySet(t, c, [BackupDirName]) ==> !(c + [BackupDirName] <= q)
  {
    forall q | q in CopySet(t, c, [BackupDirName]) ensures !(c + [BackupDirName] <= q) {
      var j := |c| + 1;
      assert q[..j] == c + [q[|c|]];
      assert !(q[..j] in t && t[q[..j]].Dir? && q[j - 1] in [BackupDirName]);
    }
  }

  /** A backup taken into `c`/bk/`ts` holds no `bk` entry at its top level,
      so backups never nest. */
  lemma BackupHoldsNoBk(t: Tree, c: Path, ts: string, now: int)
    requires WellFormed(t) && CanMkdirAll(t, c + [BackupDirName, ts])
    ensures var b := c + [BackupDirName, ts];
      forall k :: k in CopyMap(MkdirAll(t, b), c, b, [BackupDirName], now) ==> k[|b|] != BackupDirName
  {
    var b := c + [BackupDirName, ts];
    var t1 := MkdirAll(t, b);
    MkdirAllWellFormed(t, b);
    assert b[..|c| + 1] == c + [BackupDirName];
    BackupSkipsBk(t1, c);
    forall k | k in CopyMap(t1, c, b, [BackupDirName], now) ensures k[|b|] != BackupDirName {
      var q := c + k[|b|..];
      assert q[..|c| + 1] == c + [k[|b|]];
    }
  }

  /** A backup directory with nothing below it yet never clashes with the
      copy. */
  lemma FreshBackupFits(t: Tree, c: Path, b: Path, ex: seq<string>)
    requires forall q :: q in t ==> !(b < q)
    ensures CopyFits(MkdirAll(t, b), c, b, ex)
  {
    var t1 := MkdirAll(t, b);
    forall q | q in t1 ensures !(b < q) {
      if q !in t {
        assert q <= b;
      }
    }
    FreshTargetFits(t1, c, b, ex);
  }

  // ---------------------------------------------------------------------------
  // runBackup
  // ---------------------------------------------------------------------------

  /** runBackup once the configuration is read: every project of the group
      gets one result, in order, all under the same timestamp; each result
      is counted once, and the command fails exactly when some backup
      failed. A dry run changes nothing and fails nothing. In a real run
      `ts` are the trees between the projects: `ts[i]` before the i-th is
      backed up. */
  method RunBackup(fs: FileSystem, projects: seq<Config.ProjectPath>, timestamp: string, dryRun: bool,
                   now: int, fault: nat -> bool) returns (results: seq<BackupResult>, err: Option<string>, ghost ts: seq<Tree>)
    requires fs.Valid()
    modifies fs
    ensures fs.Valid()
    ensures BackedUpAll(old(fs.tree), fs.tree, ts, fs.home, projects, timestamp, dryRun, now, fault, results)
    ensures Count(results, IsBackedUp) + Count(results, IsSkipped) + Count(results, IsFailed) == |projects|
    ensures err.Some? <==> Count(results, IsFailed) > 0
    ensures dryRun ==> fs.tree == old(fs.tree) && err.None?
  {
    results, ts := BackupAll(fs, projects, timestamp, dryRun, now, fault);
    var successCount, skippedCount, failedCount := CountResults(results);
    BackedUpAllDecided(old(fs.tree), fs.tree, ts, fs.home, projects, timestamp, dryRun, now, fault, results);
    CountThreeWays(results, IsBackedUp, IsSkipped, IsFailed);
    if failedCount > 0 {
      return results, Some("some backup operations failed"), ts;
    }
    err := None;
  }

  /** The projects were backed up one after the other, from `t0` to `t`,
      through the trees `ts`, all with the same `timestamp`: the i-th from
      `ts[i]` to `ts[i + 1]`, with the i-th result. */
  ghost predicate BackedUpAll(t0: Tree, t: Tree, ts: seq<Tree>, home: Option<string>,
                              projects: seq<Config.ProjectPath>, timestamp: string, dryRun: bool, now: int,
                              fault: nat -> bool, results: seq<BackupResult>) {
    && Chain(BackupStep(home, timestamp, dryRun, now, fault), ts, projects, results)
    && ts[0] == t0 && ts[|projects|] == t
  }

  /** The backup of one project, as a step of the chain. */
  ghost function BackupStep(home: Option<string>, timestamp: string, dryRun: bool, now: int, fault: nat -> bool)
    : (Tree, Tree, Config.ProjectPath, nat, BackupResult) -> bool
  {
    (a: Tree, b: Tree, p: Config.ProjectPath, i: nat, x: BackupResult) =>
      ProjectBackedUp(a, b, home, p, timestamp, dryRun, now, fault(i), x)
  }

  /** Every project has its own result, decided one way. */
  lemma BackedUpAllDecided(t0: Tree, t: Tree, ts: seq<Tree>, home: Option<string>,
                           projects: seq<Config.ProjectPath>, timestamp: string, dryRun: bool, now: int,
                           fault: nat -> bool, results: seq<BackupResult>)
    requires BackedUpAll(t0, t, ts, home, projects, timestamp, dryRun, now, fault, results)
    ensures |results| == |projects|
    ensures forall i :: 0 <= i < |results| ==> results[i].project == projects[i].alias
    ensures forall i :: 0 <= i < |results| ==>
              (if IsBackedUp(results[i]) then 1 else 0) + (if IsSkipped(results[i]) then 1 else 0)
              + (if IsFailed(results[i]) then 1 else 0) == 1
  {
    forall i | 0 <= i < |results| ensures results[i].project == projects[i].alias && Decided(results[i]) {
      assert ProjectBackedUp(ts[i], ts[i + 1], home, projects[i], timestamp, dryRun, now, fault(i), results[i]);
    }
  }

  /** A dry run fails no project. */
  lemma DryBackupFailsNone(t0: Tree, t: Tree, ts: seq<Tree>, home: Option<string>,
                           projects: seq<Config.ProjectPath>, timestamp: string, now: int,
                           fault: nat -> bool, results: seq<BackupResult>)
    requires BackedUpAll(t0, t, ts, home, projects, timestamp, true, now, fault, results)
    ensures t == t0 && Count(results, IsFailed) == 0
  {
    forall i | 0 <= i < |projects| ensures ts[i + 1] == ts[i] && !IsFailed(results[i]) {
      DryBackupOne(ts[i], ts[i + 1], home, projects[i], timestamp, now, fault(i), results[i]);
    }
    Steady(ts, |projects|);
    CountZero(results, IsFailed);
  }

  lemma DryBackupOne(t: Tree, t': Tree, home: Option<string>, project: Config.ProjectPath,
                     timestamp: string, now: int, fault: bool, r: BackupResult)
    requires ProjectBackedUp(t, t', home, project, timestamp, true, now, fault, r)
    ensures t' == t && !IsFailed(r)
  {
  }

  /** The loop of runBackup over all projects of the group. */
  method BackupAll(fs: FileSystem, projects: seq<Config.ProjectPath>, timestamp: string, dryRun: bool,
                   now: int, fault: nat -> bool) returns (results: seq<BackupResult>, ghost ts: seq<Tree>)
    requires fs.Valid()
    modifies fs
    ensures fs.Valid()
    ensures BackedUpAll(old(fs.tree), fs.tree, ts, fs.home, projects, timestamp, dryRun, now, fault, results)
    ensures dryRun ==> fs.tree == old(fs.tree) && Count(results, IsFailed) == 0
  {
    results := [];
    ts := [fs.tree];
    var k := 0;
    while k < |projects|
      invariant fs.Valid() && k <= |projects|
      invariant BackedUpAll(old(fs.tree), fs.tree, ts, fs.home, projects[..k], timestamp, dryRun, now, fault, results)
    {
      ghost var before := fs.tree;
      var r := BackupProject(fs, projects[k], timestamp, dryRun, now, fault(k));
      BackedUpAllStep(old(fs.tree), ts, fs.tree, fs.home, projects, k, timestamp, dryRun, now, fault, results, r);
      results := results + [r];
      ts := ts + [fs.tree];
      k := k + 1;
    }
    assert projects[..k] == projects;
    if dryRun {
      DryBackupFailsNone(old(fs.tree), fs.tree, ts, fs.home, projects, timestamp, now, fault, results);
    }
  }

  lemma BackedUpAllStep(t0: Tree, ts: seq<Tree>, t: Tree, home: Option<string>, projects: seq<Config.ProjectPath>,
                        k: nat, timestamp: string, dryRun: bool, now: int, fault: nat -> bool,
                        results: seq<BackupResult>, r: BackupResult)
    requires k < |projects| && |ts| == k + 1
    requires BackedUpAll(t0, ts[k], ts, home, projects[..k], timestamp, dryRun, now, fault, results)
    requires ProjectBackedUp(ts[k], t, home, projects[k], timestamp, dryRun, now, fault(k), r)
    ensures BackedUpAll(t0, t, ts + [t], home, projects[..k + 1], timestamp, dryRun, now, fault, results + [r])
  {
    ChainStep(BackupStep(home, timestamp, dryRun, now, fault), ts, t, projects, k, results, r);
  }

  /** The counting loop of runBackup: skipped first, then failed, then
      backed up. */
  method CountResults(results: seq<BackupResult>) returns (succeeded: nat, skipped: nat, failed: nat)
    ensures succeeded == Count(results, IsBackedUp)
    ensures skipped == Count(results, IsSkipped)
    ensures failed == Count(results, IsFailed)
  {
    succeeded, skipped, failed := 0, 0, 0;
    var k := 0;
    while k < |results|
      invariant k <= |results|
      invariant succeeded == Count(results[..k], IsBackedUp)
      invariant skipped == Count(results[..k], IsSkipped)
      invariant failed == Count(results[..k], IsFailed)
    {
      var r := results[k];
      TakeSnoc(results, k);
      CountSnoc(results[..k], r, IsBackedUp);
      CountSnoc(results[..k], r, IsSkipped);
      CountSnoc(results[..k], r, IsFailed);
      if r.skipped {
        skipped := skipped + 1;
      } else if r.error.Some? {
        failed := failed + 1;
      } else if r.success {
        succeeded := succeeded + 1;
      }
      k := k + 1;
    }
    assert results[..k] == results;
  }
}
