/** Command `mv`: renaming a file or directory inside the .claude directory
    of every project of a group. The configuration has already been read:
    the command starts from the group's projects. The answer to the
    confirmation prompt is an input, and `fault(i)` stands for an I/O error
    of the rename in the i-th project. */
module Move {
  import opened Strings
  import opened Seqs
  import opened Paths
  import opened FileUtils
  import Config

  datatype MoveResult = MoveResult(project: string, moved: bool, skipped: bool, skipReason: string, error: Option<string>)

  /** The guard of runMv: a path that is, or cleans to, "bk" names the
      backup directory. */
  predicate Reserved(p: string) {
    p == "bk" || Clean(p) == "bk"
  }

  /** The path `rel` inside a project's .claude directory. */
  function InProject(p: Config.ProjectPath, home: Option<string>, rel: string): string {
    Join(ExpandHome(p.path, home), rel)
  }

  // ---------------------------------------------------------------------------
  // moveInProject
  // ---------------------------------------------------------------------------

  /** What moveInProject does to the tree `t`, giving `t'` and the result
      `r`: a source that is not found or a destination that is skips the
      project with its reason and changes nothing; a dry run reports the
      move and changes nothing; otherwise the parent directories of the
      destination are created and the source is renamed, as MoveFile does;
      a failed rename sets the error. */
  ghost predicate ProjectMoved(t: Tree, t': Tree, home: Option<string>, project: Config.ProjectPath,
                               fromPath: string, toPath: string, dryRun: bool, fault: bool, r: MoveResult) {
    var src, dst := InProject(project, home, fromPath), InProject(project, home, toPath);
    var s, d := Locate(src, home), Locate(dst, home);
    && r.project == project.alias && Decided(r)
    && (!Found(t, src, home) ==> r == MoveResult(project.alias, false, true, "source not found", None) && t' == t)
    && (Found(t, src, home) && Found(t, dst, home) ==>
          r == MoveResult(project.alias, false, true, "destination already exists", None) && t' == t)
    && (Found(t, src, home) && !Found(t, dst, home) && dryRun ==>
          r == MoveResult(project.alias, true, false, "", None) && t' == t)
    && (Found(t, src, home) && !Found(t, dst, home) && !dryRun ==>
          && (!CanMkdirAll(t, Parent(d)) ==> IsFailed(r) && t' == t)
          && (CanMkdirAll(t, Parent(d)) ==>
                var t1 := MkdirAll(t, Parent(d));
                var o := OsRename(t1, s, d, ExpandHomeUtils(src, home) == ExpandHomeUtils(dst, home), fault);
                if o.Some? then IsMoved(r) && t' == o.value else IsFailed(r) && t' == t1))
  }

  /** moveInProject. */
  method MoveInProject(fs: FileSystem, project: Config.ProjectPath, fromPath: string, toPath: string,
                       dryRun: bool, fault: bool) returns (r: MoveResult)
    requires fs.Valid()
    modifies fs
    ensures fs.Valid()
    ensures ProjectMoved(old(fs.tree), fs.tree, fs.home, project, fromPath, toPath, dryRun, fault, r)
  {
    var src := InProject(project, fs.home, fromPath);
    var dst := InProject(project, fs.home, toPath);
    if !fs.FileExists(src) {
      return MoveResult(project.alias, false, true, "source not found", None);
    }
    if fs.FileExists(dst) {
      return MoveResult(project.alias, false, true, "destination already exists", None);
    }
    if dryRun {
      return MoveResult(project.alias, true, false, "", None);
    }
    var err := fs.MoveFile(src, dst, fault);
    if err.Some? {
      return MoveResult(project.alias, false, false, "", err);
    }
    r := MoveResult(project.alias, true, false, "", None);
  }

  /** In a real run, a project whose destination is not the root is moved
      exactly when the parents of the destination can be made, the
      destination does not lie inside the source, and no I/O error strikes;
      then the source is gone and the destination holds what the source
      held. */
  lemma MovedMeaning(t: Tree, t': Tree, home: Option<string>, project: Config.ProjectPath,
                     fromPath: string, toPath: string, fault: bool, r: MoveResult)
    requires WellFormed(t) && ProjectMoved(t, t', home, project, fromPath, toPath, false, fault, r)
    requires Locate(InProject(project, home, toPath), home) != []
    ensures var s, d := Locate(InProject(project, home, fromPath), home), Locate(InProject(project, home, toPath), home);
      && (IsMoved(r) <==> s in t && d !in t && CanMkdirAll(t, Parent(d)) && !(s < d) && !fault)
      && (IsMoved(r) ==> s !in t' && d in t' && t'[d] == t[s])
  {
    var src, dst := InProject(project, home, fromPath), InProject(project, home, toPath);
    var s, d := Locate(src, home), Locate(dst, home);
    FoundIn(t, dst, home);
    if Found(t, src, home) && d !in t && CanMkdirAll(t, Parent(d)) {
      var t1 := MkdirAll(t, Parent(d));
      MkdirAllWellFormed(t, Parent(d));
      assert d !in t1;
      if !(s < d) {
        MovedSourceToDestination(t1, s, d);
      }
    }
  }

  // ---------------------------------------------------------------------------
  // runMv
  // ---------------------------------------------------------------------------

  /** The source exists in the project's .claude directory of tree `t`. */
  function HasSource(t: Tree, home: Option<string>, fromPath: string): Config.ProjectPath -> bool {
    p => Found(t, InProject(p, home, fromPath), home)
  }

  function Lacks(has: Config.ProjectPath -> bool): Config.ProjectPath -> bool {
    p => !has(p)
  }

  /** The loop of runMv that sorts the projects by whether they hold the
      source, keeping the order of the group. */
  method FindSources(fs: FileSystem, projects: seq<Config.ProjectPath>, fromPath: string)
      returns (found: seq<Config.ProjectPath>, notFound: seq<Config.ProjectPath>)
    ensures found == Filter(projects, HasSource(fs.tree, fs.home, fromPath))
    ensures notFound == Filter(projects, Lacks(HasSource(fs.tree, fs.home, fromPath)))
  {
    ghost var has := HasSource(fs.tree, fs.home, fromPath);
    found, notFound := [], [];
    var k := 0;
    while k < |projects|
      invariant k <= |projects|
      invariant found == Filter(projects[..k], has)
      invariant notFound == Filter(projects[..k], Lacks(has))
    {
      var p := projects[k];
      TakeSnoc(projects, k);
      FilterAppend(projects[..k], [p], has);
      FilterAppend(projects[..k], [p], Lacks(has));
      assert [p][..0] == [];
      if fs.FileExists(InProject(p, fs.home, fromPath)) {
        found := found + [p];
      } else {
        notFound := notFound + [p];
      }
      k := k + 1;
    }
    assert projects[..k] == projects;
  }

  predicate IsSkipped(r: MoveResult) { r.skipped }
  predicate IsFailed(r: MoveResult) { !r.skipped && r.error.Some? }
  predicate IsMoved(r: MoveResult) { !r.skipped && r.error.None? && r.moved }

  /** A result falls in exactly one of the three counts. */
  predicate Decided(r: MoveResult) {
    r.skipped || r.error.Some? || r.moved
  }

  /** runMv once the configuration is read. A source or destination that is
      the backup directory is refused before the file system is looked at;
      a source found in no project, or a declined confirmation (without
      --force or --dry-run), ends the command with no change and no error;
      otherwise every project of the group gets one result, in order, and
      the command fails exactly when some move failed. A dry run changes
      nothing and fails nothing. When the projects are moved, `ts` are the
      trees between them: `ts[i]` before the i-th. */
  method RunMv(fs: FileSystem, projects: seq<Config.ProjectPath>, fromPath: string, toPath: string,
               dryRun: bool, force: bool, response: Option<string>, fault: nat -> bool)
      returns (results: seq<MoveResult>, err: Option<string>, ghost ts: seq<Tree>)
    requires fs.Valid()
    modifies fs
    ensures fs.Valid()
    ensures Reserved(fromPath) || Reserved(toPath) ==> err.Some? && results == [] && fs.tree == old(fs.tree)
    ensures !Reserved(fromPath) && !Reserved(toPath) && Filter(projects, HasSource(old(fs.tree), fs.home, fromPath)) == [] ==>
              err.None? && results == [] && fs.tree == old(fs.tree)
    ensures !Reserved(fromPath) && !Reserved(toPath) && !force && !dryRun && response != Some("y") && response != Some("Y") ==>
              err.None? && results == [] && fs.tree == old(fs.tree)
    ensures !Reserved(fromPath) && !Reserved(toPath) && Filter(projects, HasSource(old(fs.tree), fs.home, fromPath)) != [] &&
            (force || dryRun || response == Some("y") || response == Some("Y")) ==>
              && MovedAll(old(fs.tree), fs.tree, ts, fs.home, projects, fromPath, toPath, dryRun, fault, results)
              && Count(results, IsMoved) + Count(results, IsSkipped) + Count(results, IsFailed) == |projects|
              && (err.Some? <==> Count(results, IsFailed) > 0)
    ensures dryRun ==> fs.tree == old(fs.tree)
    ensures dryRun && !Reserved(fromPath) && !Reserved(toPath) ==> err.None?
  {
    ts := [fs.tree];
    if fromPath == "bk" || Clean(fromPath) == "bk" {
      return [], Some("cannot move 'bk' directory: it is reserved for backups"), ts;
    }
    if toPath == "bk" || Clean(toPath) == "bk" {
      return [], Some("cannot move to 'bk' directory: it is reserved for backups"), ts;
    }
    results, err, ts := MoveChecked(fs, projects, fromPath, toPath, dryRun, force, response, fault);
  }

  /** runMv after the guard on the backup directory. */
  method MoveChecked(fs: FileSystem, projects: seq<Config.ProjectPath>, fromPath: string, toPath: string,
                     dryRun: bool, force: bool, response: Option<string>, fault: nat -> bool)
      returns (results: seq<MoveResult>, err: Option<string>, ghost ts: seq<Tree>)
    requires fs.Valid()
    modifies fs
    ensures fs.Valid()
    ensures Filter(projects, HasSource(old(fs.tree), fs.home, fromPath)) == [] ==>
              err.None? && results == [] && fs.tree == old(fs.tree)
    ensures !force && !dryRun && response != Some("y") && response != Some("Y") ==>
              err.None? && results == [] && fs.tree == old(fs.tree)
    ensures Filter(projects, HasSource(old(fs.tree), fs.home, fromPath)) != [] &&
            (force || dryRun || response == Some("y") || response == Some("Y")) ==>
              && MovedAll(old(fs.tree), fs.tree, ts, fs.home, projects, fromPath, toPath, dryRun, fault, results)
              && Count(results, IsMoved) + Count(results, IsSkipped) + Count(results, IsFailed) == |projects|
              && (err.Some? <==> Count(results, IsFailed) > 0)
    ensures dryRun ==> fs.tree == old(fs.tree) && err.None?
  {
    ts := [fs.tree];
    var found, notFound := FindSources(fs, projects, fromPath);
    if |found| == 0 {
      return [], None, ts;
    }
    if !force && !dryRun {
      if response.None? || (response.value != "y" && response.value != "Y") {
        return [], None, ts;
      }
    }
    results, ts := MoveAll(fs, projects, fromPath, toPath, dryRun, fault);
    var movedCount, skippedCount, failedCount := CountResults(results);
    MovedAllDecided(old(fs.tree), fs.tree, ts, fs.home, projects, fromPath, toPath, dryRun, fault, results);
    CountThreeWays(results, IsMoved, IsSkipped, IsFailed);
    if failedCount > 0 {
      return results, Some("some move operations failed"), ts;
    }
    err := None;
  }

  /** The projects were moved in one after the other, from `t0` to `t`,
      through the trees `ts`: the i-th from `ts[i]` to `ts[i + 1]`, with the
      i-th result. */
  ghost predicate MovedAll(t0: Tree, t: Tree, ts: seq<Tree>, home: Option<string>, projects: seq<Config.ProjectPath>,
                           fromPath: string, toPath: string, dryRun: bool, fault: nat -> bool, results: seq<MoveResult>) {
    && Chain(MoveStep(home, fromPath, toPath, dryRun, fault), ts, projects, results)
    && ts[0] == t0 && ts[|projects|] == t
  }

  /** The move in one project, as a step of the chain. */
  ghost function MoveStep(home: Option<string>, fromPath: string, toPath: string, dryRun: bool, fault: nat -> bool)
    : (Tree, Tree, Config.ProjectPath, nat, MoveResult) -> bool
  {
    (a: Tree, b: Tree, p: Config.ProjectPath, i: nat, x: MoveResult) =>
      ProjectMoved(a, b, home, p, fromPath, toPath, dryRun, fault(i), x)
  }

  /** Every project has its own result, decided one way. */
  lemma MovedAllDecided(t0: Tree, t: Tree, ts: seq<Tree>, home: Option<string>, projects: seq<Config.ProjectPath>,
                        fromPath: string, toPath: string, dryRun: bool, fault: nat -> bool, results: seq<MoveResult>)
    requires MovedAll(t0, t, ts, home, projects, fromPath, toPath, dryRun, fault, results)
    ensures |results| == |projects|
    ensures forall i :: 0 <= i < |results| ==> results[i].project == projects[i].alias
    ensures forall i :: 0 <= i < |results| ==>
              (if IsMoved(results[i]) then 1 else 0) + (if IsSkipped(results[i]) then 1 else 0)
              + (if IsFailed(results[i]) then 1 else 0) == 1
  {
    forall i | 0 <= i < |results| ensures results[i].project == projects[i].alias && Decided(results[i]) {
      assert ProjectMoved(ts[i], ts[i + 1], home, projects[i], fromPath, toPath, dryRun, fault(i), results[i]);
    }
  }

  /** A dry run changes nothing and fails no project. */
  lemma DryMoveFailsNone(t0: Tree, t: Tree, ts: seq<Tree>, home: Option<string>, projects: seq<Config.ProjectPath>,
                         fromPath: string, toPath: string, fault: nat -> bool, results: seq<MoveResult>)
    requires MovedAll(t0, t, ts, home, projects, fromPath, toPath, true, fault, results)
    ensures t == t0 && Count(results, IsFailed) == 0
  {
    forall i | 0 <= i < |projects| ensures ts[i + 1] == ts[i] && !IsFailed(results[i]) {
      DryMoveOne(ts[i], ts[i + 1], home, projects[i], fromPath, toPath, fault(i), results[i]);
    }
    Steady(ts, |projects|);
    CountZero(results, IsFailed);
  }

  lemma DryMoveOne(t: Tree, t': Tree, home: Option<string>, project: Config.ProjectPath,
                   fromPath: string, toPath: string, fault: bool, r: MoveResult)
    requires ProjectMoved(t, t', home, project, fromPath, toPath, true, fault, r)
    ensures t' == t && !IsFailed(r)
  {
  }

  /** The loop of runMv over all projects of the group. */
  method MoveAll(fs: FileSystem, projects: seq<Config.ProjectPath>, fromPath: string, toPath: string,
                 dryRun: bool, fault: nat -> bool) returns (results: seq<MoveResult>, ghost ts: seq<Tree>)
    requires fs.Valid()
    modifies fs
    ensures fs.Valid()
    ensures MovedAll(old(fs.tree), fs.tree, ts, fs.home, projects, fromPath, toPath, dryRun, fault, results)
    ensures dryRun ==> fs.tree == old(fs.tree) && Count(results, IsFailed) == 0
  {
    results := [];
    ts := [fs.tree];
    var k := 0;
    while k < |projects|
      invariant fs.Valid() && k <= |projects|
      invariant MovedAll(old(fs.tree), fs.tree, ts, fs.home, projects[..k], fromPath, toPath, dryRun, fault, results)
    {
      var r := MoveInProject(fs, projects[k], fromPath, toPath, dryRun, fault(k));
      MovedAllStep(old(fs.tree), ts, fs.tree, fs.home, projects, k, fromPath, toPath, dryRun, fault, results, r);
      results := results + [r];
      ts := ts + [fs.tree];
      k := k + 1;
    }
    assert projects[..k] == projects;
    if dryRun {
      DryMoveFailsNone(old(fs.tree), fs.tree, ts, fs.home, projects, fromPath, toPath, fault, results);
    }
  }

  lemma MovedAllStep(t0: Tree, ts: seq<Tree>, t: Tree, home: Option<string>, projects: seq<Config.ProjectPath>,
                     k: nat, fromPath: string, toPath: string, dryRun: bool, fault: nat -> bool,
                     results: seq<MoveResult>, r: MoveResult)
    requires k < |projects| && |ts| == k + 1
    requires MovedAll(t0, ts[k], ts, home, projects[..k], fromPath, toPath, dryRun, fault, results)
    requires ProjectMoved(ts[k], t, home, projects[k], fromPath, toPath, dryRun, fault(k), r)
    ensures MovedAll(t0, t, ts + [t], home, projects[..k + 1], fromPath, toPath, dryRun, fault, results + [r])
  {
    ChainStep(MoveStep(home, fromPath, toPath, dryRun, fault), ts, t, projects, k, results, r);
  }

  /** The counting loop of runMv: skipped first, then failed, then moved. */
  method CountResults(results: seq<MoveResult>) returns (moved: nat, skipped: nat, failed: nat)
    ensures moved == Count(results, IsMoved)
    ensures skipped == Count(results, IsSkipped)
    ensures failed == Count(results, IsFailed)
  {
    moved, skipped, failed := 0, 0, 0;
    var k := 0;
    while k < |results|
      invariant k <= |results|
      invariant moved == Count(results[..k], IsMoved)
      invariant skipped == Count(results[..k], IsSkipped)
      invariant failed == Count(results[..k], IsFailed)
    {
      var r := results[k];
      TakeSnoc(results, k);
      CountSnoc(results[..k], r, IsMoved);
      CountSnoc(results[..k], r, IsSkipped);
      CountSnoc(results[..k], r, IsFailed);
      if r.skipped {
        skipped := skipped + 1;
      } else if r.error.Some? {
        failed := failed + 1;
      } else if r.moved {
        moved := moved + 1;
      }
      k := k + 1;
    }
    assert results[..k] == results;
  }
}
