/** Command `rm`: deleting a file or directory from the .claude directory of
    every project of a group. The configuration has already been read: the
    command starts from the group's projects. The answer to the
    confirmation prompt is an input (an empty answer when none could be
    read), and `fault(i)` stands for an I/O error while removing the i-th
    project's target. */
module Remove {
  import opened Strings
  import opened Seqs
  import opened Paths
  import opened FileUtils
  import Config

  datatype DeleteTarget = DeleteTarget(project: Config.ProjectPath, fullPath: string, existing: bool)

  /** What the command reports: nothing to delete, cancelled at the prompt,
      or the counts of the deletion loop and the command's error. */
  datatype RmOutcome =
    | NothingToDelete
    | Cancelled
    | Finished(deleted: nat, skipped: nat, failed: nat, err: Option<string>)

  /** The targets of the projects in tree `t`: one per project, in order,
      with whether it exists. The project's path is joined as written; `~`
      is expanded only when the file system is consulted. */
  function Targets(t: Tree, home: Option<string>, projects: seq<Config.ProjectPath>, targetPath: string): (ts: seq<DeleteTarget>)
    ensures |ts| == |projects|
  {
    seq(|projects|, i requires 0 <= i < |projects| => TargetOf(t, home, projects[i], targetPath))
  }

  /** The target of one project: its path joined with the target path. */
  function TargetOf(t: Tree, home: Option<string>, project: Config.ProjectPath, targetPath: string): DeleteTarget {
    var full := Join(project.path, targetPath);
    DeleteTarget(project, full, Found(t, full, home))
  }

  predicate Present(x: DeleteTarget) { x.existing }
  predicate Missing(x: DeleteTarget) { !x.existing }

  /** The first loop of runRm: every target and whether it exists, recorded
      before anything is deleted. */
  method BuildTargets(fs: FileSystem, projects: seq<Config.ProjectPath>, targetPath: string)
      returns (targets: seq<DeleteTarget>)
    ensures targets == Targets(fs.tree, fs.home, projects, targetPath)
  {
    ghost var ts := Targets(fs.tree, fs.home, projects, targetPath);
    targets := [];
    for k := 0 to |projects|
      invariant targets == ts[..k]
    {
      var fullPath := Join(projects[k].path, targetPath);
      var existing := fs.FileExists(fullPath);
      var x := DeleteTarget(projects[k], fullPath, existing);
      assert x == TargetOf(fs.tree, fs.home, projects[k], targetPath) == ts[k];
      targets := targets + [x];
      assert ts[..k + 1] == ts[..k] + [ts[k]];
    }
    assert ts[..|projects|] == ts;
  }

  /** runRm once the configuration is read. When no target exists nothing is
      deleted and there is no error; without --force or --dry-run any answer
      but "y" or "Y" cancels with no change. Otherwise missing targets are
      skipped, existing ones deleted (a dry run only counts them), every
      project is counted once, and the command fails exactly when a
      deletion failed. Without I/O errors nothing fails and the tree loses
      exactly the subtrees of the existing targets. */
  method RunRm(fs: FileSystem, projects: seq<Config.ProjectPath>, targetPath: string,
               dryRun: bool, force: bool, response: string, fault: nat -> bool) returns (r: RmOutcome)
    requires fs.Valid()
    modifies fs
    ensures fs.Valid()
    ensures var ts := Targets(old(fs.tree), fs.home, projects, targetPath);
      && (Count(ts, Present) == 0 ==> r == NothingToDelete && fs.tree == old(fs.tree))
      && (Count(ts, Present) > 0 && !force && !dryRun && response != "y" && response != "Y" ==>
            r == Cancelled && fs.tree == old(fs.tree))
      && (Count(ts, Present) > 0 && (force || dryRun || response == "y" || response == "Y") ==>
            && r.Finished?
            && r.deleted + r.skipped + r.failed == |projects|
            && r.skipped == Count(ts, Missing)
            && (r.err.Some? <==> r.failed > 0)
            && ((forall i :: 0 <= i < |projects| ==> !fault(i)) ==> r.failed == 0)
            && (dryRun ==> r.failed == 0 && r.deleted == Count(ts, Present))
            && (!dryRun ==> forall i :: 0 <= i < |ts| && ts[i].existing && !fault(i) && fs.Loc(ts[i].fullPath) != [] ==>
                              fs.Loc(ts[i].fullPath) !in fs.tree)
            && (!dryRun && (forall i :: 0 <= i < |projects| ==> !fault(i)) ==>
                  fs.tree == Pruned(old(fs.tree), fs.home, ts, |ts|)))
    ensures dryRun ==> fs.tree == old(fs.tree)
  {
    var targets := BuildTargets(fs, projects, targetPath);
    var existsCount := CountPresent(targets);
    if existsCount == 0 {
      return NothingToDelete;
    }
    if !force && !dryRun {
      if response != "y" && response != "Y" {
        return Cancelled;
      }
    }
    ghost var locs := seq(|targets|, i requires 0 <= i < |targets| => fs.Loc(targets[i].fullPath));
    var deleted, skipped, failed := DeleteTargets(fs, targets, locs, dryRun, fault);
    CountThreeWays(targets, Present, Missing, (x: DeleteTarget) => false);
    CountNone(targets);
    if failed > 0 {
      return Finished(deleted, skipped, failed, Some("some deletions failed"));
    }
    r := Finished(deleted, skipped, failed, None);
  }

  lemma CountNone(targets: seq<DeleteTarget>)
    ensures Count(targets, (x: DeleteTarget) => false) == 0
  {
    CountZero(targets, (x: DeleteTarget) => false);
  }

  /** The display loop of runRm, which counts the existing targets. */
  method CountPresent(targets: seq<DeleteTarget>) returns (existsCount: nat)
    ensures existsCount == Count(targets, Present)
  {
    existsCount := 0;
    for k := 0 to |targets|
      invariant existsCount == Count(targets[..k], Present)
    {
      TakeSnoc(targets, k);
      CountSnoc(targets[..k], targets[k], Present);
      if targets[k].existing {
        existsCount := existsCount + 1;
      }
    }
    assert targets[..|targets|] == targets;
  }

  /** The deletion loop of runRm. `locs` are the targets' locations in the
      tree; a target recorded as existing names a path, since FileExists
      never finds one that expands to "". */
  method DeleteTargets(fs: FileSystem, targets: seq<DeleteTarget>, ghost locs: seq<Path>, dryRun: bool, fault: nat -> bool)
      returns (deleted: nat, skipped: nat, failed: nat)
    requires fs.Valid()
    requires |locs| == |targets|
    requires forall i :: 0 <= i < |targets| ==> locs[i] == fs.Loc(targets[i].fullPath)
    requires forall i :: 0 <= i < |targets| && targets[i].existing ==> ExpandHomeUtils(targets[i].fullPath, fs.home) != ""
    modifies fs
    ensures fs.Valid()
    ensures skipped == Count(targets, Missing)
    ensures deleted + failed == Count(targets, Present)
    ensures (forall i :: 0 <= i < |targets| ==> !fault(i)) ==> failed == 0
    ensures dryRun ==> failed == 0 && fs.tree == old(fs.tree)
    ensures !dryRun ==> forall i :: 0 <= i < |targets| && targets[i].existing && !fault(i) && locs[i] != [] ==>
                          locs[i] !in fs.tree
    ensures !dryRun && (forall i :: 0 <= i < |targets| ==> !fault(i)) ==>
              fs.tree == Pruned(old(fs.tree), fs.home, targets, |targets|)
  {
    deleted, skipped, failed := 0, 0, 0;
    for k := 0 to |targets|
      invariant fs.Valid()
      invariant skipped == Count(targets[..k], Missing)
      invariant deleted + failed == Count(targets[..k], Present)
      invariant NoFault(fault, k) ==> failed == 0
      invariant dryRun ==> failed == 0 && fs.tree == old(fs.tree)
      invariant !dryRun ==> Gone(fs.tree, targets, locs, fault, k)
      invariant !dryRun && NoFault(fault, k) ==> fs.tree == Pruned(old(fs.tree), fs.home, targets, k)
    {
      var target := targets[k];
      TallyStep(targets, k);
      if !target.existing {
        skipped := skipped + 1;
        if !dryRun {
          SkipStep(old(fs.tree), fs.tree, fs.home, targets, locs, fault, k);
        }
        continue;
      }
      if !dryRun {
        var ok := DeleteAt(fs, targets, locs, k, fault, old(fs.tree));
        if !ok {
          failed := failed + 1;
          continue;
        }
      }
      deleted := deleted + 1;
    }
    assert targets[..|targets|] == targets;
  }

  /** No I/O error in the first `k` deletions. */
  predicate NoFault(fault: nat -> bool, k: nat) {
    forall i :: 0 <= i < k ==> !fault(i)
  }

  /** Skipping a missing target deletes nothing and prunes nothing. */
  lemma SkipStep(t0: Tree, t: Tree, home: Option<string>, targets: seq<DeleteTarget>, locs: seq<Path>,
                 fault: nat -> bool, k: nat)
    requires k < |targets| == |locs| && !targets[k].existing
    requires Gone(t, targets, locs, fault, k)
    ensures Gone(t, targets, locs, fault, k + 1)
    ensures Pruned(t0, home, targets, k + 1) == Pruned(t0, home, targets, k)
  {
    PrunedSkip(t0, home, targets, k);
  }

  /** Counting one more target adds it to the missing or the present ones. */
  lemma TallyStep(targets: seq<DeleteTarget>, k: nat)
    requires k < |targets|
    ensures Count(targets[..k + 1], Missing) == Count(targets[..k], Missing) + (if targets[k].existing then 0 else 1)
    ensures Count(targets[..k + 1], Present) == Count(targets[..k], Present) + (if targets[k].existing then 1 else 0)
  {
    TakeSnoc(targets, k);
    CountSnoc(targets[..k], targets[k], Missing);
    CountSnoc(targets[..k], targets[k], Present);
  }

  /** The existing targets before `k` that were deleted without an I/O
      error are absent from `t`. */
  ghost predicate Gone(t: Tree, targets: seq<DeleteTarget>, locs: seq<Path>, fault: nat -> bool, k: nat)
    requires k <= |targets| == |locs|
  {
    forall i :: 0 <= i < k && targets[i].existing && !fault(i) && locs[i] != [] ==> locs[i] !in t
  }

  /** Nothing absent reappears, and the k-th target is absent when it had to
      be removed; then one more target is accounted for. */
  lemma GoneStep(t0: Tree, t1: Tree, targets: seq<DeleteTarget>, locs: seq<Path>, fault: nat -> bool, k: nat)
    requires k < |targets| == |locs|
    requires Gone(t0, targets, locs, fault, k)
    requires forall q :: q !in t0 ==> q !in t1
    requires targets[k].existing && !fault(k) && locs[k] != [] ==> locs[k] !in t1
    ensures Gone(t1, targets, locs, fault, k + 1)
  { }

  /** `q` lies below none of the existing targets before `k`, each taken as
      its location after `~` expansion. */
  predicate Kept(home: Option<string>, targets: seq<DeleteTarget>, k: nat, q: Path)
    requires k <= |targets|
  {
    forall i :: 0 <= i < k && targets[i].existing ==> !(Locate(targets[i].fullPath, home) <= q)
  }

  lemma KeptStep(home: Option<string>, targets: seq<DeleteTarget>, k: nat, q: Path)
    requires k < |targets|
    ensures Kept(home, targets, k + 1, q) <==>
              Kept(home, targets, k, q) && !(targets[k].existing && Locate(targets[k].fullPath, home) <= q)
  {
  }

  /** `t` without the subtrees at the existing targets before `k`; the root
      always stays. */
  ghost function Pruned(t: Tree, home: Option<string>, targets: seq<DeleteTarget>, k: nat): (r: Tree)
    requires k <= |targets|
    ensures forall q :: q in r <==> q in t && (q == [] || Kept(home, targets, k, q))
    ensures forall q :: q in r ==> r[q] == t[q]
  {
    map q | q in t && (q == [] || Kept(home, targets, k, q)) :: t[q]
  }

  /** A missing target prunes nothing. */
  lemma PrunedSkip(t: Tree, home: Option<string>, targets: seq<DeleteTarget>, k: nat)
    requires k < |targets| && !targets[k].existing
    ensures Pruned(t, home, targets, k + 1) == Pruned(t, home, targets, k)
  {
    forall q ensures Kept(home, targets, k + 1, q) == Kept(home, targets, k, q) {
      KeptStep(home, targets, k, q);
    }
  }

  /** One pass of the deletion loop in a real run, on an existing target. */
  method DeleteAt(fs: FileSystem, targets: seq<DeleteTarget>, ghost locs: seq<Path>, k: nat, fault: nat -> bool,
                  ghost t: Tree) returns (ok: bool)
    requires fs.Valid() && k < |targets| == |locs| && targets[k].existing
    requires ExpandHomeUtils(targets[k].fullPath, fs.home) != ""
    requires locs[k] == fs.Loc(targets[k].fullPath)
    requires Gone(fs.tree, targets, locs, fault, k)
    modifies fs
    ensures fs.Valid() && Gone(fs.tree, targets, locs, fault, k + 1)
    ensures !fault(k) ==> ok
    ensures !fault(k) && old(fs.tree) == Pruned(t, fs.home, targets, k) ==> fs.tree == Pruned(t, fs.home, targets, k + 1)
  {
    ghost var t0 := fs.tree;
    ok := DeleteOne(fs, targets[k].fullPath, locs[k], fault(k));
    GoneStep(t0, fs.tree, targets, locs, fault, k);
    if !fault(k) && t0 == Pruned(t, fs.home, targets, k) {
      PrunedAfterDelete(t, t0, fs.tree, fs.home, targets, k);
    }
  }

  /** A deletion as DeleteOne does it, without an I/O error, prunes one
      more target. */
  lemma PrunedAfterDelete(t: Tree, t0: Tree, t1: Tree, home: Option<string>, targets: seq<DeleteTarget>, k: nat)
    requires k < |targets| && targets[k].existing
    requires t0 == Pruned(t, home, targets, k) && WellFormed(t0)
    requires var loc := Locate(targets[k].fullPath, home);
      && (loc !in t0 ==> t1 == t0)
      && (loc in t0 ==> t1 == RemoveAll(t0, loc))
    ensures t1 == Pruned(t, home, targets, k + 1)
  {
    PrunedStep(t, home, targets, k);
  }

  lemma PrunedStep(t: Tree, home: Option<string>, targets: seq<DeleteTarget>, k: nat)
    requires k < |targets| && targets[k].existing && WellFormed(Pruned(t, home, targets, k))
    ensures var r, loc := Pruned(t, home, targets, k), Locate(targets[k].fullPath, home);
      Pruned(t, home, targets, k + 1) == if loc in r then RemoveAll(r, loc) else r
  {
    var r, loc := Pruned(t, home, targets, k), Locate(targets[k].fullPath, home);
    var r' := Pruned(t, home, targets, k + 1);
    forall q ensures q in r' <==> q in r && (q == [] || !(loc <= q)) {
      KeptStep(home, targets, k, q);
    }
    if loc !in r {
      forall q | q in r && q != [] ensures !(loc <= q) {
        if loc <= q {
          assert q[..|loc|] == loc;
          AncestorIn(r, q, |loc|);
        }
      }
      assert r' == r;
    } else {
      assert r' == RemoveAll(r, loc);
    }
  }

  /** One deletion of the loop: RemoveFile of the target. A target
      FileExists no longer finds (or never could, its path expanding to
      "") is left alone; otherwise, without an I/O error, it is removed
      with all below it, and with one, some nodes at or below it may be
      gone. */
  method DeleteOne(fs: FileSystem, fullPath: string, ghost loc: Path, fault: bool) returns (ok: bool)
    requires fs.Valid()
    requires loc == fs.Loc(fullPath)
    modifies fs
    ensures fs.Valid()
    ensures !Found(old(fs.tree), fullPath, fs.home) ==> ok && fs.tree == old(fs.tree)
    ensures Found(old(fs.tree), fullPath, fs.home) && !fault ==> ok && fs.tree == RemoveAll(old(fs.tree), loc)
    ensures Found(old(fs.tree), fullPath, fs.home) && fault ==> !ok && OnlyBelow(old(fs.tree), fs.tree, loc)
    ensures forall q :: q !in old(fs.tree) ==> q !in fs.tree
    ensures ok && loc != [] ==> loc !in fs.tree
  {
    var err := fs.RemoveFile(fullPath, fault);
    ok := err.None?;
    if loc != [] {
      FoundIn(old(fs.tree), fullPath, fs.home);
    }
  }
}
