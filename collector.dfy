/** Package syncer, collection side: the record kept for every file found
    under a project's .claude directory, and the helpers that group, list
    and filter such records. */
module Collector {
  import opened Strings
  import opened Seqs
  import opened Paths
  import opened Walk
  import opened FileUtils
  import Config

  /** One collected file. `modTime` is the file's modification time in
      nanoseconds. */
  datatype FileInfo = FileInfo(relPath: string, absPath: string, project: string, priority: int, modTime: int)

  /** The distinct relative paths of `files`. */
  function RelPaths(files: seq<FileInfo>): set<string> {
    set f | f in files :: f.relPath
  }

  /** The files with relative path `rp`, in input order. */
  function GroupOf(files: seq<FileInfo>, rp: string): seq<FileInfo> {
    Filter(files, (f: FileInfo) => f.relPath == rp)
  }

  /** The files of project `alias`, in input order. */
  function OfProject(files: seq<FileInfo>, alias: string): seq<FileInfo> {
    Filter(files, (f: FileInfo) => f.project == alias)
  }

  lemma RelPathsSnoc(files: seq<FileInfo>, f: FileInfo)
    ensures RelPaths(files + [f]) == RelPaths(files) + {f.relPath}
  {
    assert forall g :: g in files + [f] <==> g in files || g == f;
  }

  lemma GroupOfSnoc(files: seq<FileInfo>, f: FileInfo, rp: string)
    ensures GroupOf(files + [f], rp) == GroupOf(files, rp) + (if f.relPath == rp then [f] else [])
  {
    assert (files + [f])[..|files|] == files;
  }

  /** The map of groups of `files`. */
  predicate IsGrouping(files: seq<FileInfo>, grouped: map<string, seq<FileInfo>>) {
    grouped.Keys == RelPaths(files) && forall rp :: rp in grouped ==> grouped[rp] == GroupOf(files, rp)
  }

  lemma GroupingSnoc(files: seq<FileInfo>, f: FileInfo, grouped: map<string, seq<FileInfo>>)
    requires IsGrouping(files, grouped)
    ensures IsGrouping(files + [f], grouped[f.relPath := (if f.relPath in grouped then grouped[f.relPath] else []) + [f]])
  {
    RelPathsSnoc(files, f);
    GroupsPartition(files, f, f.relPath);
    var grouped' := grouped[f.relPath := (if f.relPath in grouped then grouped[f.relPath] else []) + [f]];
    forall rp | rp in grouped' ensures grouped'[rp] == GroupOf(files + [f], rp) {
      GroupOfSnoc(files, f, rp);
      if rp != f.relPath {
        assert grouped'[rp] == grouped[rp];
      }
    }
  }

  /** GroupFilesByRelPath: one group per distinct relative path, holding the
      files with that path in input order (see GroupsPartition). */
  method GroupFilesByRelPath(files: seq<FileInfo>) returns (grouped: map<string, seq<FileInfo>>)
    ensures grouped.Keys == RelPaths(files)
    ensures forall rp :: rp in grouped ==> grouped[rp] == GroupOf(files, rp)
  {
    grouped := map[];
    for i := 0 to |files|
      invariant IsGrouping(files[..i], grouped)
    {
      var f := files[i];
      assert files[..i + 1] == files[..i] + [f];
      GroupingSnoc(files[..i], f, grouped);
      grouped := grouped[f.relPath := (if f.relPath in grouped then grouped[f.relPath] else []) + [f]];
    }
    assert files[..|files|] == files;
  }

  /** Every file is in the group of its own relative path and in no other, and
      no group is empty. */
  lemma GroupsPartition(files: seq<FileInfo>, f: FileInfo, rp: string)
    ensures f in GroupOf(files, rp) <==> f in files && f.relPath == rp
    ensures rp in RelPaths(files) <==> GroupOf(files, rp) != []
  {
    if rp in RelPaths(files) {
      var g :| g in files && g.relPath == rp;
      assert g in GroupOf(files, rp);
    }
    if GroupOf(files, rp) != [] {
      assert GroupOf(files, rp)[0] in GroupOf(files, rp);
    }
  }

  /** The distinct relative paths of `files` in the order of their first
      occurrence. */
  function FirstOccurrences(files: seq<FileInfo>): (u: seq<string>)
    ensures forall i, j :: 0 <= i < j < |u| ==> u[i] != u[j]
    ensures forall rp :: rp in u <==> rp in RelPaths(files)
  {
    if files == [] then []
    else
      var init := files[..|files| - 1];
      var f := files[|files| - 1];
      assert files == init + [f];
      var u := FirstOccurrences(init);
      if f.relPath in u then u else u + [f.relPath]
  }

  /** Listing a prefix of the input gives a prefix of the listing that holds
      exactly the paths seen in that prefix: the listing is in
      first-occurrence order. */
  lemma {:induction false} FirstOccurrencesPrefix(files: seq<FileInfo>, k: nat)
    requires k <= |files|
    ensures FirstOccurrences(files[..k]) <= FirstOccurrences(files)
    decreases |files| - k
  {
    if k < |files| {
      var files' := files[..|files| - 1];
      assert files'[..k] == files[..k];
      FirstOccurrencesPrefix(files', k);
    } else {
      assert files[..k] == files;
    }
  }

  /** GetUniqueRelPaths: each distinct relative path once, in first-occurrence
      order (the result is not sorted). */
  method GetUniqueRelPaths(files: seq<FileInfo>) returns (paths: seq<string>)
    ensures paths == FirstOccurrences(files)
  {
    var seen: set<string> := {};
    paths := [];
    for i := 0 to |files|
      invariant paths == FirstOccurrences(files[..i])
      invariant seen == RelPaths(files[..i])
    {
      var f := files[i];
      assert files[..i + 1][..i] == files[..i];
      assert files[..i + 1] == files[..i] + [f];
      RelPathsSnoc(files[..i], f);
      if f.relPath !in seen {
        seen := seen + {f.relPath};
        paths := paths + [f.relPath];
      }
    }
    assert files[..|files|] == files;
  }

  /** FilterFilesByProject: the files whose project is `alias`, in input order. */
  method FilterFilesByProject(files: seq<FileInfo>, alias: string) returns (filtered: seq<FileInfo>)
    ensures filtered == OfProject(files, alias)
  {
    filtered := [];
    for i := 0 to |files|
      invariant filtered == OfProject(files[..i], alias)
    {
      assert files[..i + 1] == files[..i] + [files[i]];
      assert files[..i + 1][..i] == files[..i];
      if files[i].project == alias {
        filtered := filtered + [files[i]];
      }
    }
    assert files[..|files|] == files;
  }

  /** NormalizePath: separators are already '/', and one trailing '/' is
      dropped. */
  function NormalizePath(path: string): (r: string)
    ensures HasSuffix(path, "/") ==> r + "/" == path
    ensures !HasSuffix(path, "/") ==> r == path
  {
    TrimSuffix(path, "/")
  }

  // ---------------------------------------------------------------------------
  // collectFromProject and CollectFiles
  // ---------------------------------------------------------------------------

  /** The walk below `root` reports `q`: it lies strictly below the root, is
      a file (the walk's callback skips the root and directories), and no
      directory between the root and it is named "bk" (such a directory is
      skipped with everything below it). */
  predicate Collectable(t: Tree, root: Path, q: Path) {
    root < q && q in t && t[q].File? && forall i :: |root| <= i < |q| - 1 ==> q[i] != "bk"
  }

  /** The record made for the file at `q`: its location relative to the
      root with '/' between names, the path the walk reached it by, and the
      project's alias and priority. */
  function Info(t: Tree, root: Path, claudeDir: string, p: Config.ProjectPath, q: Path): (f: FileInfo)
    requires root < q && q in t && t[q].File?
    ensures f.project == p.alias && f.priority == p.priority && f.modTime == t[q].modTime
  {
    var rel := JoinWith(q[|root|..], '/');
    FileInfo(rel, Join(claudeDir, rel), p.alias, p.priority, t[q].modTime)
  }

  /** The files the walk below `root` reports. */
  function CollectableSet(t: Tree, root: Path): (r: set<Path>)
    ensures forall q :: q in r <==> q in t && Collectable(t, root, q)
  {
    set q | q in t && Collectable(t, root, q)
  }

  predicate AllCollectable(t: Tree, root: Path, qs: seq<Path>) {
    forall i :: 0 <= i < |qs| ==> Collectable(t, root, qs[i])
  }

  function Infos(t: Tree, root: Path, claudeDir: string, p: Config.ProjectPath, qs: seq<Path>): (r: seq<FileInfo>)
    requires AllCollectable(t, root, qs)
    ensures |r| == |qs|
    ensures forall i :: 0 <= i < |qs| ==> r[i] == Info(t, root, claudeDir, p, qs[i])
  {
    if qs == [] then [] else Infos(t, root, claudeDir, p, qs[..|qs| - 1]) + [Info(t, root, claudeDir, p, qs[|qs| - 1])]
  }

  /** What collectFromProject gives for `p` on the tree `t`: an error for a
      missing path (os.Stat fails on an empty path too) or a path that is
      not a directory, and otherwise one
      record per reported file, in the order of the walk. */
  ghost function ProjectFiles(t: Tree, home: Option<string>, p: Config.ProjectPath): Result<seq<FileInfo>> {
    var claudeDir := ExpandHome(p.path, home);
    var root := PathOf(claudeDir);
    if claudeDir == "" || root !in t then Err(".claude directory does not exist: " + claudeDir)
    else if !t[root].Dir? then Err("path is not a directory: " + claudeDir)
    else Ok(Infos(t, root, claudeDir, p, WalkOrder(CollectableSet(t, root))))
  }

  /** After the walk has reported `visited`, `todo` is what remains to be
      reported, and everything reported came before it. */
  ghost predicate WalkedSoFar(all: set<Path>, todo: set<Path>, visited: seq<Path>) {
    && todo <= all
    && InWalkOrder(visited)
    && (forall x :: x in visited <==> x in all && x !in todo)
    && (forall x, y :: x in visited && y in todo ==> Before(x, y))
  }

  lemma WalkStep(all: set<Path>, todo: set<Path>, visited: seq<Path>, q: Path)
    requires WalkedSoFar(all, todo, visited) && IsFirst(todo, q)
    ensures WalkedSoFar(all, todo - {q}, visited + [q])
  {
    var v := visited + [q];
    forall i, j | 0 <= i < j < |v| ensures Before(v[i], v[j]) {
      if j < |visited| {
        assert v[i] == visited[i] && v[j] == visited[j];
      } else {
        assert v[i] in visited;
      }
    }
  }

  /** collectFromProject: the walk over the project's .claude directory,
      reporting every file it reaches in walk order. */
  method CollectFromProject(fs: FileSystem, project: Config.ProjectPath) returns (r: Result<seq<FileInfo>>)
    requires fs.Valid()
    ensures r == ProjectFiles(fs.tree, fs.home, project)
  {
    var claudeDir := ExpandHome(project.path, fs.home);
    var root := PathOf(claudeDir);
    if claudeDir == "" || root !in fs.tree {
      return Err(".claude directory does not exist: " + claudeDir);
    }
    if !fs.tree[root].Dir? {
      return Err("path is not a directory: " + claudeDir);
    }
    var todo := CollectableSet(fs.tree, root);
    ghost var all := todo;
    ghost var visited: seq<Path> := [];
    var files: seq<FileInfo> := [];
    while todo != {}
      invariant WalkedSoFar(all, todo, visited)
      invariant AllCollectable(fs.tree, root, visited)
      invariant files == Infos(fs.tree, root, claudeDir, project, visited)
      decreases |todo|
    {
      FirstExists(todo);
      var q :| IsFirst(todo, q);
      WalkStep(all, todo, visited, q);
      files := files + [Info(fs.tree, root, claudeDir, project, q)];
      visited := visited + [q];
      todo := todo - {q};
    }
    WalkOrderUnique(visited, WalkOrder(all));
    r := Ok(files);
  }

  /** What CollectFiles gathers: the records of every project whose
      collection succeeds, project after project; a failing project adds
      nothing. */
  ghost function Collected(t: Tree, home: Option<string>, projects: seq<Config.ProjectPath>): seq<FileInfo> {
    if projects == [] then []
    else
      var last := projects[|projects| - 1];
      var r := ProjectFiles(t, home, last);
      Collected(t, home, projects[..|projects| - 1]) + (if r.Ok? then r.value else [])
  }

  /** CollectFiles: an error exactly when no project contributed a file. */
  method CollectFiles(fs: FileSystem, projects: seq<Config.ProjectPath>) returns (r: Result<seq<FileInfo>>)
    requires fs.Valid()
    ensures r.Err? <==> Collected(fs.tree, fs.home, projects) == []
    ensures r.Ok? ==> r.value == Collected(fs.tree, fs.home, projects)
  {
    var all: seq<FileInfo> := [];
    for i := 0 to |projects|
      invariant all == Collected(fs.tree, fs.home, projects[..i])
    {
      ghost var pre := projects[..i + 1];
      assert pre[..i] == projects[..i] && pre[i] == projects[i];
      var files := CollectFromProject(fs, projects[i]);
      if files.Ok? {
        all := all + files.value;
      }
    }
    assert projects[..|projects|] == projects;
    if |all| == 0 {
      return Err("no files collected from any project");
    }
    r := Ok(all);
  }

  /** Every record the walk makes names a file below the project's root by
      its relative path: read back name by name that path leads from the
      root to the file, no directory on the way is named "bk", and the
      record carries the project's alias and priority and the file's
      modification time. The root itself and directories are never
      recorded. */
  lemma ProjectRecords(t: Tree, home: Option<string>, p: Config.ProjectPath, f: FileInfo)
    requires GoodNames(t)
    requires ProjectFiles(t, home, p).Ok? && f in ProjectFiles(t, home, p).value
    ensures var claudeDir := ExpandHome(p.path, home);
      var root := PathOf(claudeDir);
      var names := Split(f.relPath, '/');
      && root + names in t && t[root + names].File? && |names| >= 1
      && (forall i :: 0 <= i < |names| - 1 ==> names[i] != "bk")
      && f.absPath == Join(claudeDir, f.relPath)
      && f.project == p.alias && f.priority == p.priority && f.modTime == t[root + names].modTime
  {
    var claudeDir := ExpandHome(p.path, home);
    var root := PathOf(claudeDir);
    var qs := WalkOrder(CollectableSet(t, root));
    var files := Infos(t, root, claudeDir, p, qs);
    var k :| 0 <= k < |files| && files[k] == f;
    InfoRecord(t, root, claudeDir, p, qs[k]);
  }

  lemma InfoRecord(t: Tree, root: Path, claudeDir: string, p: Config.ProjectPath, q: Path)
    requires GoodNames(t) && Collectable(t, root, q)
    ensures var f := Info(t, root, claudeDir, p, q);
      var names := Split(f.relPath, '/');
      && root + names == q && |names| >= 1
      && (forall i :: 0 <= i < |names| - 1 ==> names[i] != "bk")
  {
    var rel := q[|root|..];
    assert GoodPath(q);
    forall i | 0 <= i < |rel| ensures '/' !in rel[i] {
      assert rel[i] == q[|root| + i];
    }
    SplitJoin(rel, '/');
    assert root + rel == q;
    forall i | 0 <= i < |rel| - 1 ensures rel[i] != "bk" {
      assert rel[i] == q[|root| + i];
    }
  }

  /** When every project fails to collect, nothing is collected, so
      CollectFiles gives its error. */
  lemma {:induction false} NothingCollected(t: Tree, home: Option<string>, projects: seq<Config.ProjectPath>)
    requires forall i :: 0 <= i < |projects| ==> ProjectFiles(t, home, projects[i]).Err?
    ensures Collected(t, home, projects) == []
  {
    if projects != [] {
      NothingCollected(t, home, projects[..|projects| - 1]);
    }
  }

  /** Collecting a list of projects is collecting its two halves one after
      the other: what one project gives does not depend on the others. */
  lemma {:induction false} CollectedAppend(t: Tree, home: Option<string>, a: seq<Config.ProjectPath>, b: seq<Config.ProjectPath>)
    ensures Collected(t, home, a + b) == Collected(t, home, a) + Collected(t, home, b)
    decreases |b|
  {
    if b != [] {
      var b' := b[..|b| - 1];
      assert (a + b)[..|a + b| - 1] == a + b';
      CollectedAppend(t, home, a, b');
    } else {
      assert a + b == a;
    }
  }
}
