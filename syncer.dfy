/** Package syncer, distribution side: every resolved file is copied into
    every project's .claude directory, after a warning about the files that
    would be overwritten, and the outcome is counted per project. */
module Syncer {
  import opened Strings
  import opened Paths
  import opened FileUtils
  import Config
  import opened Resolver

  /** The outcome for one project. */
  datatype SyncResult = SyncResult(
    project: string,
    newFiles: nat,
    overwritten: nat,
    failed: nat,
    errors: seq<string>,
    skipped: bool,
    skipReason: string)

  /** A destination that already exists before the sync. */
  datatype OverwriteInfo = OverwriteInfo(project: string, relPath: string)

  /** What happened to one resolved file in one project during a real run. */
  datatype Outcome = Created | Overwrote | CopyFailed

  /** Where a resolved file goes in a project. */
  function Target(claudeDir: string, f: ResolvedFile): string {
    Join(claudeDir, f.relPath)
  }

  // ---------------------------------------------------------------------------
  // Overwrite detection
  // ---------------------------------------------------------------------------

  /** The project's .claude directory, `~` expanded. */
  function ClaudeDir(p: Config.ProjectPath, home: Option<string>): string {
    ExpandHome(p.path, home)
  }

  /** utils.FileExists on a project's .claude directory in the tree `t`. */
  function DirExists(t: Tree, home: Option<string>): Config.ProjectPath -> bool {
    (p: Config.ProjectPath) => Found(t, ClaudeDir(p, home), home)
  }

  /** utils.FileExists on where a resolved file goes in a project. */
  function TargetExists(t: Tree, home: Option<string>): (Config.ProjectPath, ResolvedFile) -> bool {
    (p: Config.ProjectPath, f: ResolvedFile) => Found(t, Target(ClaudeDir(p, home), f), home)
  }

  /** The warnings for project `p`: the resolved files for which `hit`
      holds, in order. */
  function Warnings(p: Config.ProjectPath, rs: seq<ResolvedFile>, hit: (Config.ProjectPath, ResolvedFile) -> bool)
    : seq<OverwriteInfo>
  {
    if rs == [] then []
    else
      var f := rs[|rs| - 1];
      Warnings(p, rs[..|rs| - 1], hit) + (if hit(p, f) then [OverwriteInfo(p.alias, f.relPath)] else [])
  }

  /** The warnings for every project for which `dirHit` holds, one project
      after the other. */
  function AllWarnings(projects: seq<Config.ProjectPath>, resolved: seq<ResolvedFile>,
                       dirHit: Config.ProjectPath -> bool, hit: (Config.ProjectPath, ResolvedFile) -> bool)
    : seq<OverwriteInfo>
  {
    if projects == [] then []
    else
      var p := projects[|projects| - 1];
      AllWarnings(projects[..|projects| - 1], resolved, dirHit, hit)
        + (if dirHit(p) then Warnings(p, resolved, hit) else [])
  }

  /** The overwrite warnings SyncFiles computes on the tree `t`. */
  function Overwrites(t: Tree, home: Option<string>, resolved: seq<ResolvedFile>, projects: seq<Config.ProjectPath>)
    : seq<OverwriteInfo>
  {
    AllWarnings(projects, resolved, DirExists(t, home), TargetExists(t, home))
  }

  /** `x` warns that `f` would overwrite a file of project `p`. */
  predicate IsWarning(dirHit: Config.ProjectPath -> bool, hit: (Config.ProjectPath, ResolvedFile) -> bool,
                      p: Config.ProjectPath, f: ResolvedFile, x: OverwriteInfo) {
    dirHit(p) && hit(p, f) && x == OverwriteInfo(p.alias, f.relPath)
  }

  /** Every warning for one project names one of its resolved files for
      which `hit` holds. */
  lemma {:induction false} WarningsSound(p: Config.ProjectPath, rs: seq<ResolvedFile>,
                                         hit: (Config.ProjectPath, ResolvedFile) -> bool, x: OverwriteInfo)
    requires x in Warnings(p, rs, hit)
    ensures exists j :: 0 <= j < |rs| && hit(p, rs[j]) && x == OverwriteInfo(p.alias, rs[j].relPath)
  {
    var rs' := rs[..|rs| - 1];
    if x in Warnings(p, rs', hit) {
      WarningsSound(p, rs', hit, x);
      var j :| 0 <= j < |rs'| && hit(p, rs'[j]) && x == OverwriteInfo(p.alias, rs'[j].relPath);
      assert rs'[j] == rs[j];
    } else {
      assert hit(p, rs[|rs| - 1]);
    }
  }

  /** Each resolved file for which `hit` holds has its warning. */
  lemma {:induction false} WarningsComplete(p: Config.ProjectPath, rs: seq<ResolvedFile>,
                                            hit: (Config.ProjectPath, ResolvedFile) -> bool, j: nat)
    requires j < |rs| && hit(p, rs[j])
    ensures OverwriteInfo(p.alias, rs[j].relPath) in Warnings(p, rs, hit)
  {
    var rs' := rs[..|rs| - 1];
    if j < |rs'| {
      assert rs'[j] == rs[j];
      WarningsComplete(p, rs', hit, j);
    }
  }

  /** Every warning is issued for a project whose .claude directory exists
      and a resolved file whose destination there exists. */
  lemma {:induction false} OverwritesSound(projects: seq<Config.ProjectPath>, resolved: seq<ResolvedFile>,
                                           dirHit: Config.ProjectPath -> bool,
                                           hit: (Config.ProjectPath, ResolvedFile) -> bool, x: OverwriteInfo)
    requires x in AllWarnings(projects, resolved, dirHit, hit)
    ensures exists i, j :: 0 <= i < |projects| && 0 <= j < |resolved| && IsWarning(dirHit, hit, projects[i], resolved[j], x)
  {
    var n := |projects| - 1;
    var ps := projects[..n];
    if x in AllWarnings(ps, resolved, dirHit, hit) {
      OverwritesSound(ps, resolved, dirHit, hit, x);
      var i, j :| 0 <= i < |ps| && 0 <= j < |resolved| && IsWarning(dirHit, hit, ps[i], resolved[j], x);
      assert ps[i] == projects[i];
    } else {
      WarningsSound(projects[n], resolved, hit, x);
      var j :| 0 <= j < |resolved| && hit(projects[n], resolved[j]) && x == OverwriteInfo(projects[n].alias, resolved[j].relPath);
      assert IsWarning(dirHit, hit, projects[n], resolved[j], x);
    }
  }

  /** A project whose .claude directory exists and a resolved file whose
      destination there exists always get their warning. */
  lemma {:induction false} OverwritesComplete(projects: seq<Config.ProjectPath>, resolved: seq<ResolvedFile>,
                                              dirHit: Config.ProjectPath -> bool,
                                              hit: (Config.ProjectPath, ResolvedFile) -> bool, i: nat, j: nat)
    requires i < |projects| && j < |resolved|
    requires dirHit(projects[i]) && hit(projects[i], resolved[j])
    ensures OverwriteInfo(projects[i].alias, resolved[j].relPath) in AllWarnings(projects, resolved, dirHit, hit)
  {
    var n := |projects| - 1;
    var ps := projects[..n];
    if i < n {
      assert ps[i] == projects[i];
      OverwritesComplete(ps, resolved, dirHit, hit, i, j);
    } else {
      WarningsComplete(projects[n], resolved, hit, j);
    }
  }

  /** The loop of SyncFiles that lists the destinations already present. */
  method DetectOverwrites(fs: FileSystem, resolved: seq<ResolvedFile>, projects: seq<Config.ProjectPath>)
    returns (info: seq<OverwriteInfo>)
    ensures info == Overwrites(fs.tree, fs.home, resolved, projects)
  {
    var dirHit, hit := DirExists(fs.tree, fs.home), TargetExists(fs.tree, fs.home);
    info := [];
    for i := 0 to |projects|
      invariant info == AllWarnings(projects[..i], resolved, dirHit, hit)
    {
      assert projects[..i + 1][..i] == projects[..i];
      var claudeDir := ExpandHome(projects[i].path, fs.home);
      var present := fs.FileExists(claudeDir);
      assert present == dirHit(projects[i]);
      if present {
        var found := ProjectOverwrites(fs, resolved, projects[i], claudeDir);
        info := info + found;
      }
    }
    assert projects[..|projects|] == projects;
  }

  /** The inner loop of the overwrite detection, for one project. */
  method ProjectOverwrites(fs: FileSystem, resolved: seq<ResolvedFile>, p: Config.ProjectPath, claudeDir: string)
    returns (found: seq<OverwriteInfo>)
    requires claudeDir == ClaudeDir(p, fs.home)
    ensures found == Warnings(p, resolved, TargetExists(fs.tree, fs.home))
  {
    var hit := TargetExists(fs.tree, fs.home);
    found := [];
    for j := 0 to |resolved|
      invariant found == Warnings(p, resolved[..j], hit)
    {
      assert resolved[..j + 1][..j] == resolved[..j];
      var present := fs.FileExists(Join(claudeDir, resolved[j].relPath));
      assert present == hit(p, resolved[j]);
      if present {
        found := found + [OverwriteInfo(p.alias, resolved[j].relPath)];
      }
    }
    assert resolved[..|resolved|] == resolved;
  }

  // ---------------------------------------------------------------------------
  // syncToProject
  // ---------------------------------------------------------------------------

  /** The result for a project that is skipped because its .claude
      directory does not exist. */
  function Skipped(alias: string, claudeDir: string): (r: SyncResult)
    ensures r.skipped && r.skipReason != [] && r.newFiles == r.overwritten == r.failed == 0 && r.errors == []
  {
    SyncResult(alias, 0, 0, 0, [], true, ".claude directory does not exist: " + claudeDir)
  }

  /** What a dry run looks at: whether a project's .claude directory
      exists, where it is, and whether a resolved file's destination in a
      project exists. */
  datatype Probe = Probe(dirHit: Config.ProjectPath -> bool, dirOf: Config.ProjectPath -> string,
                         hit: (Config.ProjectPath, ResolvedFile) -> bool)

  /** The probe of the tree `t`. */
  function Look(t: Tree, home: Option<string>): Probe {
    Probe(DirExists(t, home), (p: Config.ProjectPath) => ClaudeDir(p, home), TargetExists(t, home))
  }

  /** The result of a dry run for project `p`: a project without a .claude
      directory is skipped, and otherwise an existing destination counts as
      overwritten and any other as new. */
  function DryResult(pr: Probe, resolved: seq<ResolvedFile>, p: Config.ProjectPath): SyncResult {
    if !pr.dirHit(p) then Skipped(p.alias, pr.dirOf(p))
    else DryCount(p, resolved, pr.hit)
  }

  /** A dry run skips exactly the projects without a .claude directory and
      reports every other resolved file as new or as overwritten, the
      overwritten ones being exactly those DetectOverwrites warns about. */
  lemma DryResultMeaning(pr: Probe, resolved: seq<ResolvedFile>, p: Config.ProjectPath)
    ensures var r := DryResult(pr, resolved, p);
            && r.project == p.alias
            && (r.skipped <==> !pr.dirHit(p))
            && (!r.skipped ==> r.newFiles + r.overwritten == |resolved| && r.failed == 0 && r.errors == [])
            && (!r.skipped ==> r.overwritten == |Warnings(p, resolved, pr.hit)|)
  {
    DryCountWarnings(p, resolved, pr.hit);
  }

  /** The dry-run results of the projects, in order. */
  function DryResults(pr: Probe, resolved: seq<ResolvedFile>, projects: seq<Config.ProjectPath>)
    : (rs: seq<SyncResult>)
    ensures |rs| == |projects|
  {
    if projects == [] then []
    else DryResults(pr, resolved, projects[..|projects| - 1]) + [DryResult(pr, resolved, projects[|projects| - 1])]
  }

  /** The `i`-th dry-run result is that of the `i`-th project alone. */
  lemma {:induction false} DryResultsAt(pr: Probe, resolved: seq<ResolvedFile>, projects: seq<Config.ProjectPath>, i: nat)
    requires i < |projects|
    ensures DryResults(pr, resolved, projects)[i] == DryResult(pr, resolved, projects[i])
  {
    var n := |projects| - 1;
    if i < n {
      DryResultsAt(pr, resolved, projects[..n], i);
    }
  }

  function DryCount(p: Config.ProjectPath, rs: seq<ResolvedFile>, hit: (Config.ProjectPath, ResolvedFile) -> bool)
    : (r: SyncResult)
    ensures r.project == p.alias && !r.skipped && r.skipReason == "" && r.failed == 0 && r.errors == []
    ensures r.newFiles + r.overwritten == |rs|
  {
    if rs == [] then SyncResult(p.alias, 0, 0, 0, [], false, "")
    else
      var r := DryCount(p, rs[..|rs| - 1], hit);
      if hit(p, rs[|rs| - 1]) then r.(overwritten := r.overwritten + 1)
      else r.(newFiles := r.newFiles + 1)
  }

  /** A dry run counts as overwritten exactly the files it warns about. */
  lemma {:induction false} DryCountWarnings(p: Config.ProjectPath, rs: seq<ResolvedFile>,
                                            hit: (Config.ProjectPath, ResolvedFile) -> bool)
    ensures DryCount(p, rs, hit).overwritten == |Warnings(p, rs, hit)|
  {
    if rs != [] {
      DryCountWarnings(p, rs[..|rs| - 1], hit);
    }
  }

  /** Where CopyFile reads a resolved file from. */
  function Sources(home: Option<string>): ResolvedFile -> Path {
    (f: ResolvedFile) => Locate(f.absPath, home)
  }

  /** Where CopyFile writes a resolved file to in project `p`. */
  function Destinations(home: Option<string>, p: Config.ProjectPath): ResolvedFile -> Path {
    (f: ResolvedFile) => Locate(Target(ClaudeDir(p, home), f), home)
  }

  /** Whether the destination of a resolved file in project `p` names
      anything: a path that expands to nothing is never found. */
  function Named(home: Option<string>, p: Config.ProjectPath): ResolvedFile -> bool {
    (f: ResolvedFile) => ExpandHomeUtils(Target(ClaudeDir(p, home), f), home) != ""
  }

  /** One copy in a real run, from tree `t` to tree `r`: the tree changes as
      CopyFile from `s` to `d` does; a failed copy is CopyFailed, and a
      successful one Overwrote or Created by whether FileExists found the
      destination before the copy (`named` and present), whatever its
      content. */
  ghost predicate Turn(t: Tree, r: Tree, s: Path, d: Path, named: bool, now: int, fault: bool, o: Outcome) {
    && CopyOutcome(t, r, s, d, now, fault, o != CopyFailed)
    && (o != CopyFailed ==> (o == Overwrote <==> named && d in t))
  }

  /** Every resolved file had its copy, in order, starting from `t0`: a
      failed copy does not stop the ones after it. */
  ghost predicate Turns(t0: Tree, resolved: seq<ResolvedFile>, src: ResolvedFile -> Path, dst: ResolvedFile -> Path,
                        named: ResolvedFile -> bool, now: int, fault: nat -> bool, trace: seq<Tree>, outcomes: seq<Outcome>) {
    && |trace| == |resolved| + 1 && |outcomes| == |resolved| && trace[0] == t0
    && forall k :: 0 <= k < |resolved| ==>
         Turn(trace[k], trace[k + 1], src(resolved[k]), dst(resolved[k]), named(resolved[k]), now, fault(k), outcomes[k])
  }

  /** The counters of `r` count the outcomes, with one error per failure. */
  predicate Tally(r: SyncResult, outcomes: seq<Outcome>) {
    && r.newFiles == multiset(outcomes)[Created]
    && r.overwritten == multiset(outcomes)[Overwrote]
    && r.failed == multiset(outcomes)[CopyFailed]
    && |r.errors| == r.failed
  }

  lemma {:induction false} OutcomesAddUp(outcomes: seq<Outcome>)
    ensures multiset(outcomes)[Created] + multiset(outcomes)[Overwrote] + multiset(outcomes)[CopyFailed] == |outcomes|
  {
    if outcomes != [] {
      var o := outcomes[..|outcomes| - 1];
      var x := outcomes[|outcomes| - 1];
      OutcomesAddUp(o);
      assert outcomes == o + [x];
      assert multiset(outcomes) == multiset(o) + multiset{x};
      assert multiset{x}[Created] + multiset{x}[Overwrote] + multiset{x}[CopyFailed] == 1 by {
        match x
        case Created =>
        case Overwrote =>
        case CopyFailed =>
      }
    }
  }

  /** The counters of a project that was not skipped add up to the number
      of resolved files, and there is one error per failed copy. */
  predicate Counted(r: SyncResult, n: nat) {
    if r.skipped then r.skipReason != [] && r.newFiles == r.overwritten == r.failed == 0 && r.errors == []
    else r.newFiles + r.overwritten + r.failed == n && |r.errors| == r.failed
  }

  /** One result per project, in order, each with counts that add up. */
  predicate CountedAll(results: seq<SyncResult>, projects: seq<Config.ProjectPath>, n: nat) {
    && |results| == |projects|
    && forall k :: 0 <= k < |results| ==> results[k].project == projects[k].alias && Counted(results[k], n)
  }

  /** The step of the loop of SyncFiles over the projects: one more result
      keeps the counts and, in a dry run, the dry-run results. */
  lemma ResultsStep(pr: Probe, resolved: seq<ResolvedFile>, projects: seq<Config.ProjectPath>, i: nat,
                    results: seq<SyncResult>, r: SyncResult)
    requires i < |projects|
    requires CountedAll(results, projects[..i], |resolved|)
    requires r.project == projects[i].alias && Counted(r, |resolved|)
    ensures CountedAll(results + [r], projects[..i + 1], |resolved|)
    ensures results == DryResults(pr, resolved, projects[..i]) && r == DryResult(pr, resolved, projects[i]) ==>
              results + [r] == DryResults(pr, resolved, projects[..i + 1])
  {
    assert projects[..i + 1] == projects[..i] + [projects[i]];
    assert projects[..i + 1][..i] == projects[..i];
    CountedAllSnoc(results, projects[..i], r, projects[i], |resolved|);
  }

  lemma CountedAllSnoc(results: seq<SyncResult>, projects: seq<Config.ProjectPath>, r: SyncResult,
                       p: Config.ProjectPath, n: nat)
    requires CountedAll(results, projects, n) && r.project == p.alias && Counted(r, n)
    ensures CountedAll(results + [r], projects + [p], n)
  {
    forall k | 0 <= k < |results| + 1
      ensures (results + [r])[k].project == (projects + [p])[k].alias && Counted((results + [r])[k], n)
    {
      if k < |results| { assert (results + [r])[k] == results[k] && (projects + [p])[k] == projects[k]; }
    }
  }

  lemma TallyCounted(r: SyncResult, outcomes: seq<Outcome>)
    requires Tally(r, outcomes) && !r.skipped
    ensures Counted(r, |outcomes|)
  {
    OutcomesAddUp(outcomes);
  }

  /** syncToProject at time `now`; `fault(k)` stands for an I/O error while
      copying the k-th resolved file. A project whose .claude directory is
      missing is skipped with nothing changed; a dry run changes nothing
      and counts from what exists; a real run copies every file in turn. */
  method SyncToProject(fs: FileSystem, resolved: seq<ResolvedFile>, project: Config.ProjectPath, dryRun: bool,
                       now: int, fault: nat -> bool)
    returns (r: SyncResult, ghost trace: seq<Tree>, ghost outcomes: seq<Outcome>)
    requires fs.Valid()
    modifies fs
    ensures fs.Valid()
    ensures r.project == project.alias
    ensures r.skipped <==> !DirExists(old(fs.tree), fs.home)(project)
    ensures r.skipped ==> r == Skipped(project.alias, ClaudeDir(project, fs.home)) && fs.tree == old(fs.tree)
    ensures Counted(r, |resolved|)
    ensures dryRun ==> r == DryResult(Look(old(fs.tree), fs.home), resolved, project) && fs.tree == old(fs.tree)
    ensures !dryRun && !r.skipped ==>
              && Turns(old(fs.tree), resolved, Sources(fs.home), Destinations(fs.home, project), Named(fs.home, project), now, fault, trace, outcomes)
              && trace[|resolved|] == fs.tree
              && Tally(r, outcomes) && r.skipReason == ""
  {
    var claudeDir := ExpandHome(project.path, fs.home);
    trace, outcomes := [fs.tree], [];
    var present := fs.FileExists(claudeDir);
    assert present == DirExists(fs.tree, fs.home)(project);
    if !present {
      return Skipped(project.alias, claudeDir), trace, outcomes;
    }
    if dryRun {
      r := CountAll(fs, resolved, project, claudeDir);
    } else {
      r, trace, outcomes := CopyAll(fs, resolved, project, claudeDir, now, fault);
      TallyCounted(r, outcomes);
    }
  }

  /** The loop of syncToProject in a dry run: nothing is copied. */
  method CountAll(fs: FileSystem, resolved: seq<ResolvedFile>, project: Config.ProjectPath, claudeDir: string)
    returns (r: SyncResult)
    requires claudeDir == ClaudeDir(project, fs.home)
    ensures r == DryCount(project, resolved, TargetExists(fs.tree, fs.home))
  {
    var hit := TargetExists(fs.tree, fs.home);
    r := SyncResult(project.alias, 0, 0, 0, [], false, "");
    for j := 0 to |resolved|
      invariant r == DryCount(project, resolved[..j], hit)
    {
      assert resolved[..j + 1][..j] == resolved[..j];
      var fileExists := fs.FileExists(Join(claudeDir, resolved[j].relPath));
      assert fileExists == hit(project, resolved[j]);
      if fileExists {
        r := r.(overwritten := r.overwritten + 1);
      } else {
        r := r.(newFiles := r.newFiles + 1);
      }
    }
    assert resolved[..|resolved|] == resolved;
  }

  /** The loop of syncToProject in a real run: every file is copied in
      turn, whatever happened to the ones before it. */
  method CopyAll(fs: FileSystem, resolved: seq<ResolvedFile>, project: Config.ProjectPath, claudeDir: string,
                 now: int, fault: nat -> bool)
    returns (r: SyncResult, ghost trace: seq<Tree>, ghost outcomes: seq<Outcome>)
    requires fs.Valid() && claudeDir == ClaudeDir(project, fs.home)
    modifies fs
    ensures fs.Valid()
    ensures r.project == project.alias && !r.skipped && r.skipReason == ""
    ensures Turns(old(fs.tree), resolved, Sources(fs.home), Destinations(fs.home, project), Named(fs.home, project), now, fault, trace, outcomes)
    ensures trace[|resolved|] == fs.tree
    ensures Tally(r, outcomes)
  {
    ghost var src, dst, named := Sources(fs.home), Destinations(fs.home, project), Named(fs.home, project);
    trace, outcomes := [fs.tree], [];
    r := SyncResult(project.alias, 0, 0, 0, [], false, "");
    for j := 0 to |resolved|
      invariant fs.Valid()
      invariant r.project == project.alias && !r.skipped && r.skipReason == ""
      invariant Turns(old(fs.tree), resolved[..j], src, dst, named, now, fault, trace, outcomes)
      invariant trace[j] == fs.tree
      invariant Tally(r, outcomes)
    {
      ghost var o;
      var r';
      r', o := CopyOne(fs, resolved[j], project, claudeDir, now, fault(j), r);
      TallyStep(r, r', outcomes, o);
      r := r';
      TurnsStep(old(fs.tree), resolved, j, src, dst, named, now, fault, trace, outcomes, fs.tree, o);
      trace, outcomes := trace + [fs.tree], outcomes + [o];
    }
    assert resolved[..|resolved|] == resolved;
  }

  /** One pass of the copying loop of syncToProject: the existence check,
      the copy and the counters. */
  method CopyOne(fs: FileSystem, f: ResolvedFile, ghost p: Config.ProjectPath, claudeDir: string, now: int,
                 fault: bool, r: SyncResult)
    returns (r': SyncResult, ghost o: Outcome)
    requires fs.Valid() && claudeDir == ClaudeDir(p, fs.home)
    modifies fs
    ensures fs.Valid()
    ensures Turn(old(fs.tree), fs.tree, Sources(fs.home)(f), Destinations(fs.home, p)(f), Named(fs.home, p)(f), now, fault, o)
    ensures Bumped(r, r', o)
  {
    var dstPath := Join(claudeDir, f.relPath);
    var fileExists := fs.FileExists(dstPath);
    var err := fs.CopyFile(f.absPath, dstPath, now, fault);
    assert fs.Loc(f.absPath) == Sources(fs.home)(f);
    assert fs.Loc(dstPath) == Destinations(fs.home, p)(f);
    if err.Some? {
      r' := r.(failed := r.failed + 1, errors := r.errors + [f.relPath + ": " + err.value]);
      o := CopyFailed;
    } else if fileExists {
      r' := r.(overwritten := r.overwritten + 1);
      o := Overwrote;
    } else {
      r' := r.(newFiles := r.newFiles + 1);
      o := Created;
    }
  }

  /** `r'` is `r` with the counter of outcome `o` raised by one, and one
      more error when the copy failed. */
  predicate Bumped(r: SyncResult, r': SyncResult, o: Outcome) {
    && r'.project == r.project && r'.skipped == r.skipped && r'.skipReason == r.skipReason
    && r'.newFiles == r.newFiles + (if o == Created then 1 else 0)
    && r'.overwritten == r.overwritten + (if o == Overwrote then 1 else 0)
    && r'.failed == r.failed + (if o == CopyFailed then 1 else 0)
    && |r'.errors| == |r.errors| + (if o == CopyFailed then 1 else 0)
  }

  lemma TallyStep(r: SyncResult, r': SyncResult, outcomes: seq<Outcome>, o: Outcome)
    requires Tally(r, outcomes) && Bumped(r, r', o)
    ensures Tally(r', outcomes + [o])
  {
    assert multiset(outcomes + [o]) == multiset(outcomes) + multiset{o};
  }

  lemma TurnsStep(t0: Tree, resolved: seq<ResolvedFile>, j: nat, src: ResolvedFile -> Path, dst: ResolvedFile -> Path,
                  named: ResolvedFile -> bool, now: int, fault: nat -> bool, trace: seq<Tree>, outcomes: seq<Outcome>, t: Tree, o: Outcome)
    requires j < |resolved|
    requires Turns(t0, resolved[..j], src, dst, named, now, fault, trace, outcomes)
    requires Turn(trace[j], t, src(resolved[j]), dst(resolved[j]), named(resolved[j]), now, fault(j), o)
    ensures Turns(t0, resolved[..j + 1], src, dst, named, now, fault, trace + [t], outcomes + [o])
  {
    var rs := resolved[..j + 1];
    forall k | 0 <= k < |rs|
      ensures Turn((trace + [t])[k], (trace + [t])[k + 1], src(rs[k]), dst(rs[k]), named(rs[k]), now, fault(k), (outcomes + [o])[k])
    {
      if k < j {
        assert rs[k] == resolved[..j][k];
      }
    }
  }

  // ---------------------------------------------------------------------------
  // A real run against a dry run
  // ---------------------------------------------------------------------------

  /** Project `p` was synced from tree `t` to tree `t'` with result `r`, as
      SyncToProject does in a real run: skipped with nothing changed when
      its .claude directory is missing, and otherwise every resolved file
      copied in turn and counted. */
  ghost predicate ProjectSynced(t: Tree, t': Tree, home: Option<string>, resolved: seq<ResolvedFile>,
                                p: Config.ProjectPath, now: int, fault: nat -> bool, r: SyncResult) {
    && r.project == p.alias
    && (r.skipped <==> !DirExists(t, home)(p))
    && (r.skipped ==> r == Skipped(p.alias, ClaudeDir(p, home)) && t' == t)
    && (!r.skipped ==> r.skipReason == "" && exists trace, outcomes ::
          && Turns(t, resolved, Sources(home), Destinations(home, p), Named(home, p), now, fault, trace, outcomes)
          && trace[|resolved|] == t' && Tally(r, outcomes))
  }

  /** A copy leaves every location other than its destination as it was,
      or, where there was nothing, at most a directory. */
  lemma TurnElsewhere(t: Tree, r: Tree, s: Path, d: Path, named: bool, now: int, fault: bool, o: Outcome, q: Path)
    requires Turn(t, r, s, d, named, now, fault, o) && q != d
    ensures q in t ==> q in r && r[q] == t[q]
    ensures q in r && q !in t ==> r[q].Dir?
  {
    if s != d && s in t && CanMkdirAll(t, Parent(d)) && !(d in t && t[d].Dir?) && t[s].File? && !fault {
      assert r == MkdirAll(t, Parent(d))[d := CopiedNode(t[s], now)];
    }
  }

  /** A successful copy onto a different location keeps every location
      and adds its destination. */
  lemma TurnGrows(t: Tree, r: Tree, s: Path, d: Path, named: bool, now: int, fault: bool, o: Outcome)
    requires Turn(t, r, s, d, named, now, fault, o) && o != CopyFailed && s != d
    ensures d in r && forall q :: q in t ==> q in r
  {
    assert r == MkdirAll(t, Parent(d))[d := CopiedNode(t[s], now)];
  }

  /** With distinct destinations, the copies before the `k`-th leave each
      later destination present if it was present at the start, and put at
      most a directory where there was nothing. */
  lemma {:induction false} LaterTargetsKept(t0: Tree, rs: seq<ResolvedFile>, src: ResolvedFile -> Path,
                                            dst: ResolvedFile -> Path, named: ResolvedFile -> bool,
                                            now: int, fault: nat -> bool,
                                            trace: seq<Tree>, outcomes: seq<Outcome>, k: nat)
    requires Turns(t0, rs, src, dst, named, now, fault, trace, outcomes) && k <= |rs|
    requires forall i, j :: 0 <= i < j < |rs| ==> dst(rs[i]) != dst(rs[j])
    ensures forall j :: k <= j < |rs| ==>
              && (dst(rs[j]) in t0 ==> dst(rs[j]) in trace[k] && trace[k][dst(rs[j])] == t0[dst(rs[j])])
              && (dst(rs[j]) in trace[k] && dst(rs[j]) !in t0 ==> trace[k][dst(rs[j])].Dir?)
  {
    if k > 0 {
      LaterTargetsKept(t0, rs, src, dst, named, now, fault, trace, outcomes, k - 1);
      forall j | k <= j < |rs|
        ensures dst(rs[j]) in t0 ==> dst(rs[j]) in trace[k] && trace[k][dst(rs[j])] == t0[dst(rs[j])]
        ensures dst(rs[j]) in trace[k] && dst(rs[j]) !in t0 ==> trace[k][dst(rs[j])].Dir?
      {
        var i := k - 1;
        TurnElsewhere(trace[i], trace[k], src(rs[i]), dst(rs[i]), named(rs[i]), now, fault(i), outcomes[i], dst(rs[j]));
      }
    }
  }

  /** With distinct destinations, each copy onto a different location that
      succeeds overwrites exactly when its destination existed at the start
      of the run, as the dry run and the overwrite warning predict. */
  lemma TurnsLikeDry(t0: Tree, rs: seq<ResolvedFile>, src: ResolvedFile -> Path, dst: ResolvedFile -> Path,
                     named: ResolvedFile -> bool, now: int, fault: nat -> bool, trace: seq<Tree>, outcomes: seq<Outcome>)
    requires Turns(t0, rs, src, dst, named, now, fault, trace, outcomes)
    requires forall i, j :: 0 <= i < j < |rs| ==> dst(rs[i]) != dst(rs[j])
    requires forall k :: 0 <= k < |rs| ==> src(rs[k]) != dst(rs[k])
    ensures forall k :: 0 <= k < |rs| && outcomes[k] != CopyFailed ==>
              && (outcomes[k] == Overwrote <==> named(rs[k]) && dst(rs[k]) in t0)
              && (dst(rs[k]) in t0 ==> !t0[dst(rs[k])].Dir?)
  {
    forall k | 0 <= k < |rs| && outcomes[k] != CopyFailed
      ensures outcomes[k] == Overwrote <==> named(rs[k]) && dst(rs[k]) in t0
      ensures dst(rs[k]) in t0 ==> !t0[dst(rs[k])].Dir?
    {
      LaterTargetsKept(t0, rs, src, dst, named, now, fault, trace, outcomes, k);
      var t, d := trace[k], dst(rs[k]);
      assert Turn(t, trace[k + 1], src(rs[k]), d, named(rs[k]), now, fault(k), outcomes[k]);
      assert d in t ==> !t[d].Dir?;
    }
  }

  /** After a run in which every copy onto a different location succeeds,
      every destination exists, and so does every location that existed
      before. */
  lemma {:induction false} TurnsFill(t0: Tree, rs: seq<ResolvedFile>, src: ResolvedFile -> Path,
                                     dst: ResolvedFile -> Path, named: ResolvedFile -> bool, now: int, fault: nat -> bool,
                                     trace: seq<Tree>, outcomes: seq<Outcome>, k: nat)
    requires Turns(t0, rs, src, dst, named, now, fault, trace, outcomes) && k <= |rs|
    requires forall j :: 0 <= j < |rs| ==> outcomes[j] != CopyFailed && src(rs[j]) != dst(rs[j])
    ensures forall j :: 0 <= j < k ==> dst(rs[j]) in trace[k]
    ensures forall q :: q in t0 ==> q in trace[k]
  {
    if k > 0 {
      TurnsFill(t0, rs, src, dst, named, now, fault, trace, outcomes, k - 1);
      var i := k - 1;
      TurnGrows(trace[i], trace[k], src(rs[i]), dst(rs[i]), named(rs[i]), now, fault(i), outcomes[i]);
    }
  }

  /** Outcomes that follow `hit` file by file count as the dry run does. */
  lemma {:induction false} TallyLikeDry(p: Config.ProjectPath, rs: seq<ResolvedFile>,
                                        hit: (Config.ProjectPath, ResolvedFile) -> bool, outcomes: seq<Outcome>)
    requires |outcomes| == |rs|
    requires forall k :: 0 <= k < |rs| ==> outcomes[k] != CopyFailed && (outcomes[k] == Overwrote <==> hit(p, rs[k]))
    ensures multiset(outcomes)[Created] == DryCount(p, rs, hit).newFiles
    ensures multiset(outcomes)[Overwrote] == DryCount(p, rs, hit).overwritten
  {
    if rs != [] {
      var n := |rs| - 1;
      TallyLikeDry(p, rs[..n], hit, outcomes[..n]);
      assert outcomes == outcomes[..n] + [outcomes[n]];
      assert multiset(outcomes) == multiset(outcomes[..n]) + multiset{outcomes[n]};
    }
  }

  /** A real run on one project in which no copy fails, with destinations
      that are distinct and differ from their sources, gives the very
      result a dry run on the starting tree reports; and a dry run right
      after it reports every file as overwritten. */
  lemma SyncedLikeDry(t: Tree, t': Tree, home: Option<string>, resolved: seq<ResolvedFile>,
                      p: Config.ProjectPath, now: int, fault: nat -> bool, r: SyncResult)
    requires WellFormed(t) && ProjectSynced(t, t', home, resolved, p, now, fault, r) && r.failed == 0
    requires forall i, j :: 0 <= i < j < |resolved| ==>
               Destinations(home, p)(resolved[i]) != Destinations(home, p)(resolved[j])
    requires forall k :: 0 <= k < |resolved| ==> Sources(home)(resolved[k]) != Destinations(home, p)(resolved[k])
    ensures r == DryResult(Look(t, home), resolved, p)
    ensures !r.skipped ==> DryResult(Look(t', home), resolved, p).overwritten == |resolved|
  {
    if !r.skipped {
      var src, dst, named := Sources(home), Destinations(home, p), Named(home, p);
      var trace, outcomes :| Turns(t, resolved, src, dst, named, now, fault, trace, outcomes)
                             && trace[|resolved|] == t' && Tally(r, outcomes);
      NoFailures(r, outcomes);
      TurnsLikeDry(t, resolved, src, dst, named, now, fault, trace, outcomes);
      TurnsFill(t, resolved, src, dst, named, now, fault, trace, outcomes, |resolved|);
      CountsLikeDry(t, home, resolved, p, r, outcomes);
      assert DirExists(t', home)(p);
      forall k | 0 <= k < |resolved| ensures TargetExists(t', home)(p, resolved[k]) {
        var target := Target(ClaudeDir(p, home), resolved[k]);
        if ExpandHomeUtils(target, home) == "" {
          LocateEmpty(target, home);
        }
      }
      DryCountAll(p, resolved, TargetExists(t', home));
    }
  }

  /** The counting half of SyncedLikeDry: outcomes that are never failures
      and overwrite exactly the destinations present in `t` count as a dry
      run on `t` does. */
  lemma CountsLikeDry(t: Tree, home: Option<string>, resolved: seq<ResolvedFile>, p: Config.ProjectPath,
                      r: SyncResult, outcomes: seq<Outcome>)
    requires Tally(r, outcomes) && r.failed == 0 && |outcomes| == |resolved|
    requires r.project == p.alias && !r.skipped && r.skipReason == ""
    requires forall k :: 0 <= k < |resolved| && outcomes[k] != CopyFailed ==>
               (outcomes[k] == Overwrote <==> Named(home, p)(resolved[k]) && Destinations(home, p)(resolved[k]) in t)
    requires forall k :: 0 <= k < |resolved| ==> outcomes[k] != CopyFailed
    ensures r == DryCount(p, resolved, TargetExists(t, home))
  {
    var hit := TargetExists(t, home);
    forall k | 0 <= k < |resolved| ensures outcomes[k] == Overwrote <==> hit(p, resolved[k]) {
      assert hit(p, resolved[k]) == (Named(home, p)(resolved[k]) && Destinations(home, p)(resolved[k]) in t);
    }
    TallyLikeDry(p, resolved, hit, outcomes);
    var d := DryCount(p, resolved, hit);
    assert r.errors == [] == d.errors;
    assert r.newFiles == d.newFiles && r.overwritten == d.overwritten;
  }

  /** A result that counts no failure has no failed outcome. */
  lemma NoFailures(r: SyncResult, outcomes: seq<Outcome>)
    requires Tally(r, outcomes) && r.failed == 0
    ensures forall k :: 0 <= k < |outcomes| ==> outcomes[k] != CopyFailed
  {
  }

  /** When every destination exists, a dry run counts every file as
      overwritten. */
  lemma {:induction false} DryCountAll(p: Config.ProjectPath, rs: seq<ResolvedFile>,
                                       hit: (Config.ProjectPath, ResolvedFile) -> bool)
    requires forall k :: 0 <= k < |rs| ==> hit(p, rs[k])
    ensures DryCount(p, rs, hit).overwritten == |rs|
  {
    if rs != [] {
      DryCountAll(p, rs[..|rs| - 1], hit);
    }
  }

  // ---------------------------------------------------------------------------
  // SyncFiles
  // ---------------------------------------------------------------------------

  /** SyncFiles at time `now`: `confirm` is the user's answer to the
      overwrite warning and `fault(i, k)` an I/O error while copying the
      k-th resolved file into the i-th project. In a real run `ts` are the
      trees between the projects: `ts[i]` before the i-th is synced. */
  method SyncFiles(fs: FileSystem, resolved: seq<ResolvedFile>, projects: seq<Config.ProjectPath>,
                   dryRun: bool, force: bool, confirm: bool, now: int, fault: (nat, nat) -> bool)
    returns (r: Result<seq<SyncResult>>, ghost ts: seq<Tree>)
    requires fs.Valid()
    modifies fs
    ensures fs.Valid()
    ensures resolved == [] ==> r == Err("no files to sync")
    ensures resolved != [] && Overwrites(old(fs.tree), fs.home, resolved, projects) != [] && !dryRun && !force && !confirm ==>
              r == Err("sync cancelled by user")
    ensures r.Ok? <==>
              resolved != [] && (Overwrites(old(fs.tree), fs.home, resolved, projects) == [] || dryRun || force || confirm)
    ensures r.Err? || dryRun ==> fs.tree == old(fs.tree)
    ensures r.Ok? ==> CountedAll(r.value, projects, |resolved|)
    ensures r.Ok? && dryRun ==> r.value == DryResults(Look(old(fs.tree), fs.home), resolved, projects)
    ensures r.Ok? && !dryRun ==> SyncedAll(old(fs.tree), fs.tree, ts, fs.home, resolved, projects, now, fault, r.value)
  {
    ts := [fs.tree];
    if |resolved| == 0 {
      return Err("no files to sync"), ts;
    }
    var overwriteInfo := DetectOverwrites(fs, resolved, projects);
    if |overwriteInfo| > 0 && !dryRun && !force {
      if !confirm {
        return Err("sync cancelled by user"), ts;
      }
    }
    var results;
    results, ts := SyncAll(fs, resolved, projects, dryRun, now, fault);
    r := Ok(results);
  }

  /** The copy failures that strike the `i`-th project. */
  function ProjectFaults(fault: (nat, nat) -> bool, i: nat): (f: nat -> bool)
    ensures forall k: nat :: f(k) == fault(i, k)
  {
    (k: nat) => fault(i, k)
  }

  /** The projects were synced one after the other, from `t0` to `t`,
      through the trees `ts`: the i-th from `ts[i]` to `ts[i + 1]`, with
      the i-th result. */
  ghost predicate SyncedAll(t0: Tree, t: Tree, ts: seq<Tree>, home: Option<string>, resolved: seq<ResolvedFile>,
                            projects: seq<Config.ProjectPath>, now: int, fault: (nat, nat) -> bool,
                            results: seq<SyncResult>) {
    && |ts| == |projects| + 1 && |results| == |projects| && ts[0] == t0 && ts[|projects|] == t
    && forall i :: 0 <= i < |projects| ==>
         ProjectSynced(ts[i], ts[i + 1], home, resolved, projects[i], now, ProjectFaults(fault, i), results[i])
  }

  /** The loop of SyncFiles over the projects, in order: one result each. */
  method SyncAll(fs: FileSystem, resolved: seq<ResolvedFile>, projects: seq<Config.ProjectPath>,
                 dryRun: bool, now: int, fault: (nat, nat) -> bool)
    returns (results: seq<SyncResult>, ghost ts: seq<Tree>)
    requires fs.Valid()
    modifies fs
    ensures fs.Valid()
    ensures CountedAll(results, projects, |resolved|)
    ensures dryRun ==> fs.tree == old(fs.tree)
    ensures dryRun ==> results == DryResults(Look(old(fs.tree), fs.home), resolved, projects)
    ensures !dryRun ==> SyncedAll(old(fs.tree), fs.tree, ts, fs.home, resolved, projects, now, fault, results)
  {
    results := [];
    ghost var t0 := fs.tree;
    ts := [fs.tree];
    for i := 0 to |projects|
      invariant fs.Valid()
      invariant CountedAll(results, projects[..i], |resolved|)
      invariant dryRun ==> fs.tree == old(fs.tree)
      invariant dryRun ==> results == DryResults(Look(t0, fs.home), resolved, projects[..i])
      invariant !dryRun ==> SyncedAll(t0, fs.tree, ts, fs.home, resolved, projects[..i], now, fault, results)
    {
      ghost var before := fs.tree;
      var result, trace, outcomes := SyncToProject(fs, resolved, projects[i], dryRun, now, ProjectFaults(fault, i));
      ResultsStep(Look(t0, fs.home), resolved, projects, i, results, result);
      if !dryRun {
        assert ProjectSynced(before, fs.tree, fs.home, resolved, projects[i], now, ProjectFaults(fault, i), result) by {
          if !result.skipped {
            assert Turns(before, resolved, Sources(fs.home), Destinations(fs.home, projects[i]), Named(fs.home, projects[i]), now,
                         ProjectFaults(fault, i), trace, outcomes);
          }
        }
        SyncedAllStep(t0, ts, fs.tree, fs.home, resolved, projects, i, now, fault, results, result);
      }
      results := results + [result];
      ts := ts + [fs.tree];
    }
    assert projects[..|projects|] == projects;
  }

  lemma SyncedAllStep(t0: Tree, ts: seq<Tree>, t: Tree, home: Option<string>, resolved: seq<ResolvedFile>,
                      projects: seq<Config.ProjectPath>, i: nat, now: int, fault: (nat, nat) -> bool,
                      results: seq<SyncResult>, r: SyncResult)
    requires i < |projects| && |ts| == i + 1
    requires SyncedAll(t0, ts[i], ts, home, resolved, projects[..i], now, fault, results)
    requires ProjectSynced(ts[i], t, home, resolved, projects[i], now, ProjectFaults(fault, i), r)
    ensures SyncedAll(t0, t, ts + [t], home, resolved, projects[..i + 1], now, fault, results + [r])
  {
    var ps := projects[..i + 1];
    forall k | 0 <= k < |ps|
      ensures ProjectSynced((ts + [t])[k], (ts + [t])[k + 1], home, resolved, ps[k], now, ProjectFaults(fault, k),
                            (results + [r])[k])
    {
      if k < i {
        assert ps[k] == projects[..i][k];
      }
    }
  }

  // ---------------------------------------------------------------------------
  // GetSyncSummary, countFailedProjects, HasErrors, GetTotalFiles
  // ---------------------------------------------------------------------------

  /** The numbers GetSyncSummary reports. */
  datatype Summary = Summary(totalNew: nat, totalOverwritten: nat, totalFailed: nat, successful: nat, skipped: nat)

  /** The summary of `results`: skipped projects are counted as such and
      add nothing to the file totals; a project without failures is
      successful. */
  function Totals(results: seq<SyncResult>): (s: Summary)
    ensures s.successful + s.skipped <= |results|
  {
    if results == [] then Summary(0, 0, 0, 0, 0)
    else
      var s := Totals(results[..|results| - 1]);
      var r := results[|results| - 1];
      if r.skipped then s.(skipped := s.skipped + 1)
      else Summary(s.totalNew + r.newFiles, s.totalOverwritten + r.overwritten, s.totalFailed + r.failed,
                   if r.failed == 0 then s.successful + 1 else s.successful, s.skipped)
  }

  /** The counting loop of GetSyncSummary. */
  method GetSyncSummary(results: seq<SyncResult>) returns (s: Summary)
    ensures s == Totals(results)
  {
    s := Summary(0, 0, 0, 0, 0);
    for i := 0 to |results|
      invariant s == Totals(results[..i])
    {
      assert results[..i + 1][..i] == results[..i];
      if results[i].skipped {
        s := s.(skipped := s.skipped + 1);
        continue;
      }
      s := s.(totalNew := s.totalNew + results[i].newFiles,
              totalOverwritten := s.totalOverwritten + results[i].overwritten,
              totalFailed := s.totalFailed + results[i].failed);
      if results[i].failed == 0 {
        s := s.(successful := s.successful + 1);
      }
    }
    assert results[..|results|] == results;
  }

  /** The projects with at least one failed copy. */
  function FailedProjects(results: seq<SyncResult>): (n: nat)
    ensures n <= |results|
    ensures n == 0 <==> forall i :: 0 <= i < |results| ==> results[i].failed == 0
  {
    if results == [] then 0
    else
      var n := FailedProjects(results[..|results| - 1]);
      assert forall i :: 0 <= i < |results| - 1 ==> results[..|results| - 1][i] == results[i];
      if results[|results| - 1].failed > 0 then n + 1 else n
  }

  /** countFailedProjects. */
  method CountFailedProjects(results: seq<SyncResult>) returns (count: nat)
    ensures count == FailedProjects(results)
  {
    count := 0;
    for i := 0 to |results|
      invariant count == FailedProjects(results[..i])
    {
      assert results[..i + 1][..i] == results[..i];
      if results[i].failed > 0 {
        count := count + 1;
      }
    }
    assert results[..|results|] == results;
  }

  /** HasErrors: some project had a failed copy. */
  method HasErrors(results: seq<SyncResult>) returns (b: bool)
    ensures b <==> exists i :: 0 <= i < |results| && results[i].failed > 0
  {
    for i := 0 to |results|
      invariant forall k :: 0 <= k < i ==> results[k].failed == 0
    {
      if results[i].failed > 0 {
        return true;
      }
    }
    return false;
  }

  /** The files copied or counted over all projects. */
  function TotalFiles(results: seq<SyncResult>): nat {
    if results == [] then 0
    else TotalFiles(results[..|results| - 1]) + results[|results| - 1].newFiles + results[|results| - 1].overwritten
  }

  /** GetTotalFiles. */
  method GetTotalFiles(results: seq<SyncResult>) returns (total: nat)
    ensures total == TotalFiles(results)
  {
    total := 0;
    for i := 0 to |results|
      invariant total == TotalFiles(results[..i])
    {
      assert results[..i + 1][..i] == results[..i];
      total := total + results[i].newFiles + results[i].overwritten;
    }
    assert results[..|results|] == results;
  }

  /** On results whose skipped projects counted nothing, as SyncFiles
      produces, the summary's file totals are GetTotalFiles, it reports
      failures exactly when HasErrors holds, and every project is
      successful, skipped or one of countFailedProjects. */
  lemma {:induction false} SummaryAgrees(results: seq<SyncResult>, n: nat)
    requires forall i :: 0 <= i < |results| ==> Counted(results[i], n)
    ensures Totals(results).totalNew + Totals(results).totalOverwritten == TotalFiles(results)
    ensures Totals(results).totalFailed == 0 <==> FailedProjects(results) == 0
    ensures Totals(results).successful + Totals(results).skipped + FailedProjects(results) == |results|
  {
    if results != [] {
      var rs := results[..|results| - 1];
      assert forall i :: 0 <= i < |rs| ==> rs[i] == results[i];
      SummaryAgrees(rs, n);
    }
  }
}
