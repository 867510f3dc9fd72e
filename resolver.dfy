/** Package syncer, resolution side: for every relative path collected from
    several projects, choose the one copy that will be distributed. */
module Resolver {
  import opened Strings
  import opened Seqs
  import opened Collector

  /** One second, in nanoseconds. */
  const Second: int := 1_000_000_000

  /** The copy chosen for one relative path. */
  datatype ResolvedFile = ResolvedFile(relPath: string, absPath: string, source: string, priority: int)

  /** A relative path found in more than one project. */
  datatype Conflict = Conflict(relPath: string, candidates: seq<FileInfo>, resolved: FileInfo)

  /** The two lists ResolveConflicts returns. */
  datatype Resolution = Resolution(resolved: seq<ResolvedFile>, conflicts: seq<Conflict>)

  function ToResolved(f: FileInfo): ResolvedFile {
    ResolvedFile(f.relPath, f.absPath, f.project, f.priority)
  }

  // ---------------------------------------------------------------------------
  // Choosing among candidates
  // ---------------------------------------------------------------------------

  /** Index of the first candidate with the latest modification time. */
  function FirstNewest(c: seq<FileInfo>): (i: nat)
    requires c != []
    ensures i < |c|
    ensures forall j :: 0 <= j < |c| ==> c[j].modTime <= c[i].modTime
    ensures forall j :: 0 <= j < i ==> c[j].modTime < c[i].modTime
  {
    if |c| == 1 then 0
    else
      var k := FirstNewest(c[..|c| - 1]);
      if c[|c| - 1].modTime > c[k].modTime then |c| - 1 else k
  }

  /** Index of the first candidate with the lowest priority number. */
  function FirstCheapest(c: seq<FileInfo>): (i: nat)
    requires c != []
    ensures i < |c|
    ensures forall j :: 0 <= j < |c| ==> c[i].priority <= c[j].priority
    ensures forall j :: 0 <= j < i ==> c[i].priority < c[j].priority
  {
    if |c| == 1 then 0
    else
      var k := FirstCheapest(c[..|c| - 1]);
      if c[|c| - 1].priority < c[k].priority then |c| - 1 else k
  }

  /** The test resolveConflict applies to every candidate once it knows the
      latest time `t`. */
  predicate IsRecent(f: FileInfo, t: int) {
    f.modTime > t - Second || f.modTime == t
  }

  /** The candidates modified less than a second before `t`, or at `t`. */
  function Recent(c: seq<FileInfo>, t: int): seq<FileInfo> {
    Filter(c, (f: FileInfo) => IsRecent(f, t))
  }

  /** resolveConflict: the newest candidate, unless other candidates are less
      than a second older; then the first of lowest priority number among
      those. */
  function DefaultWinner(c: seq<FileInfo>): (w: FileInfo)
    requires c != []
    ensures w in c
  {
    var latest := c[FirstNewest(c)];
    var recent := Recent(c, latest.modTime);
    if |recent| > 1 then recent[FirstCheapest(recent)] else latest
  }

  /** resolveConflictByModTime: the first newest candidate. */
  function NewestWinner(c: seq<FileInfo>): FileInfo
    requires c != []
  {
    c[FirstNewest(c)]
  }

  /** c[k] comes first among the candidates of lowest priority number that
      were modified less than a second before `t`. */
  predicate FirstCheapestRecent(c: seq<FileInfo>, t: int, k: int) {
    && 0 <= k < |c| && c[k].modTime > t - Second
    && (forall j :: 0 <= j < |c| && c[j].modTime > t - Second ==> c[k].priority <= c[j].priority)
    && (forall j :: 0 <= j < k && c[j].modTime > t - Second ==> c[k].priority < c[j].priority)
  }

  /** c[k] is the candidate resolveConflict's last loop picks from the recent
      candidates, and it is the first cheapest recent one. */
  predicate PicksCheapestRecent(c: seq<FileInfo>, t: int, k: int) {
    var f := Recent(c, t);
    f != [] && FirstCheapestRecent(c, t, k) && c[k] == f[FirstCheapest(f)]
  }

  /** Choosing the cheapest of the recent copy is choosing the first cheapest
      among the recent candidates of the original. */
  lemma {:induction false} CheapestOfRecent(c: seq<FileInfo>, t: int)
    requires Recent(c, t) != []
    ensures exists k :: PicksCheapestRecent(c, t, k)
  {
    var c' := c[..|c| - 1];
    var x := c[|c| - 1];
    assert c == c' + [x];
    if !IsRecent(x, t) {
      CheapestOfRecent(c', t);
      var k :| PicksCheapestRecent(c', t, k);
      CheapestSkip(c', x, t, k);
    } else if Recent(c', t) == [] {
      CheapestFirst(c', x, t);
    } else {
      CheapestOfRecent(c', t);
      var k :| PicksCheapestRecent(c', t, k);
      CheapestAppend(c', x, t, k);
    }
  }

  lemma CheapestSkip(c: seq<FileInfo>, x: FileInfo, t: int, k: int)
    requires !IsRecent(x, t) && PicksCheapestRecent(c, t, k)
    ensures PicksCheapestRecent(c + [x], t, k)
  {
    assert (c + [x])[..|c|] == c;
    assert Recent(c + [x], t) == Recent(c, t);
  }

  lemma CheapestFirst(c: seq<FileInfo>, x: FileInfo, t: int)
    requires IsRecent(x, t) && Recent(c, t) == []
    ensures PicksCheapestRecent(c + [x], t, |c|)
  {
    assert (c + [x])[..|c|] == c;
    forall j | 0 <= j < |c| ensures c[j].modTime <= t - Second {
      assert c[j] in c;
    }
  }

  lemma CheapestAppend(c: seq<FileInfo>, x: FileInfo, t: int, k: int)
    requires IsRecent(x, t) && PicksCheapestRecent(c, t, k)
    ensures PicksCheapestRecent(c + [x], t, if x.priority < c[k].priority then |c| else k)
  {
    var c2 := c + [x];
    assert c2[..|c|] == c;
    var f := Recent(c, t);
    var f2 := Recent(c2, t);
    assert f2 == f + [x];
    assert f2[..|f2| - 1] == f;
    if x.priority < c[k].priority {
      forall j | 0 <= j < |c2| && c2[j].modTime > t - Second ensures x.priority <= c2[j].priority {
        if j < |c| { assert c2[j] == c[j]; }
      }
      forall j | 0 <= j < |c| && c2[j].modTime > t - Second ensures x.priority < c2[j].priority {
        assert c2[j] == c[j];
      }
      assert FirstCheapestRecent(c2, t, |c|);
    } else {
      forall j | 0 <= j < |c2| && c2[j].modTime > t - Second ensures c[k].priority <= c2[j].priority {
        if j < |c| { assert c2[j] == c[j]; }
      }
      assert FirstCheapestRecent(c2, t, k);
    }
  }

  /** The default rule, stated on the candidates themselves: the winner is
      the first candidate of lowest priority number among those modified less
      than a second before the newest one. */
  lemma DefaultWinnerIsFirstCheapestRecent(c: seq<FileInfo>)
    requires c != []
    ensures exists k :: FirstCheapestRecent(c, c[FirstNewest(c)].modTime, k) && DefaultWinner(c) == c[k]
  {
    var n := FirstNewest(c);
    var t := c[n].modTime;
    var recent := Recent(c, t);
    assert c[n] in recent;
    CheapestOfRecent(c, t);
    var k :| PicksCheapestRecent(c, t, k);
    if |recent| <= 1 {
      assert recent == [c[n]] by {
        assert recent[0] == c[n];
      }
      forall j | 0 <= j < |c| && c[j].modTime > t - Second ensures c[j] == c[n] {
        assert c[j] in recent;
      }
      assert FirstCheapestRecent(c, t, n);
    }
  }

  /** When every other candidate is at least a second older, the newest wins. */
  lemma DefaultWinnerNewestAlone(c: seq<FileInfo>)
    requires c != []
    requires forall j :: 0 <= j < |c| && j != FirstNewest(c) ==> c[j].modTime <= c[FirstNewest(c)].modTime - Second
    ensures DefaultWinner(c) == c[FirstNewest(c)]
  {
    DefaultWinnerIsFirstCheapestRecent(c);
  }

  /** resolveConflictByModTime never looks at priorities: candidates that agree
      on their times get the same winner position. */
  lemma {:induction false} NewestIgnoresPriority(c: seq<FileInfo>, d: seq<FileInfo>)
    requires c != [] && |c| == |d|
    requires forall i :: 0 <= i < |c| ==> c[i].modTime == d[i].modTime
    ensures FirstNewest(c) == FirstNewest(d)
  {
    if |c| > 1 {
      NewestIgnoresPriority(c[..|c| - 1], d[..|d| - 1]);
    }
  }

  /** resolveConflict: its first loop is the search of
      resolveConflictByModTime, its second collects the recent candidates and
      its third picks the cheapest of them. */
  method ResolveConflict(candidates: seq<FileInfo>) returns (winner: FileInfo)
    requires candidates != []
    ensures winner == DefaultWinner(candidates)
  {
    var latest := ResolveConflictByModTime(candidates);
    var recent := RecentCandidates(candidates, latest.modTime);
    if |recent| > 1 {
      winner := CheapestCandidate(recent);
      return;
    }
    winner := latest;
  }

  /** The second loop of resolveConflict. */
  method RecentCandidates(candidates: seq<FileInfo>, latest: int) returns (recent: seq<FileInfo>)
    ensures recent == Recent(candidates, latest)
  {
    var threshold := latest - Second;
    recent := [];
    for i := 0 to |candidates|
      invariant recent == Recent(candidates[..i], latest)
    {
      assert candidates[..i + 1] == candidates[..i] + [candidates[i]];
      assert candidates[..i + 1][..i] == candidates[..i];
      if candidates[i].modTime > threshold || candidates[i].modTime == latest {
        recent := recent + [candidates[i]];
      }
    }
    assert candidates[..|candidates|] == candidates;
  }

  /** The third loop of resolveConflict. */
  method CheapestCandidate(recent: seq<FileInfo>) returns (winner: FileInfo)
    requires recent != []
    ensures winner == recent[FirstCheapest(recent)]
  {
    winner := recent[0];
    ghost var wi := 0;
    for i := 1 to |recent|
      invariant wi == FirstCheapest(recent[..i]) && winner == recent[wi]
    {
      assert recent[..i + 1][..i] == recent[..i];
      if recent[i].priority < winner.priority {
        winner := recent[i];
        wi := i;
      }
    }
    assert recent[..|recent|] == recent;
  }

  /** resolveConflictByModTime, as the loop it runs. */
  method ResolveConflictByModTime(candidates: seq<FileInfo>) returns (winner: FileInfo)
    requires candidates != []
    ensures winner == NewestWinner(candidates)
  {
    winner := candidates[0];
    ghost var wi := 0;
    for i := 1 to |candidates|
      invariant wi == FirstNewest(candidates[..i]) && winner == candidates[wi]
    {
      assert candidates[..i + 1][..i] == candidates[..i];
      if candidates[i].modTime > winner.modTime {
        winner := candidates[i];
        wi := i;
      }
    }
    assert candidates[..|candidates|] == candidates;
  }

  // ---------------------------------------------------------------------------
  // Folder filter
  // ---------------------------------------------------------------------------

  /** relPath is `folder` (one trailing '/' dropped) or lies below it. */
  predicate InFolder(relPath: string, folder: string) {
    var f := TrimSuffix(folder, "/");
    relPath == f || HasPrefix(relPath, f + "/")
  }

  /** isFileInFilteredFolder: some folder of the filter holds the path. */
  function IsFileInFilteredFolder(relPath: string, folderFilter: seq<string>): (r: bool)
    ensures r <==> exists i :: 0 <= i < |folderFilter| && InFolder(relPath, folderFilter[i])
  {
    if folderFilter == [] then false
    else if InFolder(relPath, folderFilter[0]) then true
    else
      var r := IsFileInFilteredFolder(relPath, folderFilter[1..]);
      assert forall i :: 1 <= i < |folderFilter| ==> folderFilter[i] == folderFilter[1..][i - 1];
      r
  }

  /** The copy chosen for a group of files sharing `relPath`. */
  function Choose(group: seq<FileInfo>, relPath: string, folderFilter: seq<string>): FileInfo
    requires group != []
  {
    if |group| == 1 then group[0]
    else if IsFileInFilteredFolder(relPath, folderFilter) then NewestWinner(group)
    else DefaultWinner(group)
  }

  // ---------------------------------------------------------------------------
  // ResolveConflicts
  // ---------------------------------------------------------------------------

  function ResolvedKey(r: ResolvedFile): string { r.relPath }
  function ConflictKey(c: Conflict): string { c.relPath }

  function ResolvedPaths(rs: seq<ResolvedFile>): set<string> { KeySet(rs, ResolvedKey) }
  function ConflictPaths(cs: seq<Conflict>): set<string> { KeySet(cs, ConflictKey) }

  /** The relative paths found in two or more files. */
  function Contested(files: seq<FileInfo>): set<string> {
    set rp | rp in RelPaths(files) && |GroupOf(files, rp)| > 1
  }

  predicate GoodResolved(files: seq<FileInfo>, folderFilter: seq<string>, r: ResolvedFile) {
    var g := GroupOf(files, r.relPath);
    g != [] && r == ToResolved(Choose(g, r.relPath, folderFilter))
  }

  predicate GoodConflict(files: seq<FileInfo>, folderFilter: seq<string>, c: Conflict) {
    && c.candidates == GroupOf(files, c.relPath)
    && |c.candidates| > 1
    && c.resolved == Choose(c.candidates, c.relPath, folderFilter)
  }

  /** What ResolveConflicts returns for non-empty input: one resolved entry per
      distinct relative path and one conflict per contested path, each list
      strictly ascending by relative path. */
  predicate IsResolution(files: seq<FileInfo>, folderFilter: seq<string>, res: Resolution) {
    && StrictlyAscending(res.resolved, ResolvedKey)
    && ResolvedPaths(res.resolved) == RelPaths(files)
    && (forall r :: r in res.resolved ==> GoodResolved(files, folderFilter, r))
    && StrictlyAscending(res.conflicts, ConflictKey)
    && ConflictPaths(res.conflicts) == Contested(files)
    && (forall c :: c in res.conflicts ==> GoodConflict(files, folderFilter, c))
  }

  /** ResolveConflicts: an error for no files; otherwise the groups are
      visited in map order and both lists are sorted by relative path. */
  method ResolveConflicts(files: seq<FileInfo>, folderFilter: seq<string>) returns (r: Result<Resolution>)
    ensures r.Err? <==> files == []
    ensures r.Ok? ==> IsResolution(files, folderFilter, r.value)
  {
    if |files| == 0 {
      return Err("no files to resolve");
    }
    var resolved, conflicts := ResolveGroups(files, folderFilter);
    var sortedResolved := SortByKey(resolved, ResolvedKey);
    var sortedConflicts := SortByKey(conflicts, ConflictKey);
    SortedResolution(files, folderFilter, resolved, conflicts, sortedResolved, sortedConflicts);
    r := Ok(Resolution(sortedResolved, sortedConflicts));
  }

  /** The grouping and the loop over the groups of ResolveConflicts, which
      visits the groups in map order. */
  method ResolveGroups(files: seq<FileInfo>, folderFilter: seq<string>)
      returns (resolved: seq<ResolvedFile>, conflicts: seq<Conflict>)
    requires files != []
    ensures Progress(files, folderFilter, RelPaths(files), resolved, conflicts)
  {
    var grouped := GroupFilesByRelPath(files);
    resolved := [];
    conflicts := [];
    var todo := grouped.Keys;
    ProgressInit(files, folderFilter);
    while todo != {}
      invariant todo <= grouped.Keys
      invariant Progress(files, folderFilter, grouped.Keys - todo, resolved, conflicts)
      decreases |todo|
    {
      var rp :| rp in todo;
      resolved, conflicts := ResolveGroup(files, folderFilter, grouped.Keys - todo, resolved, conflicts, rp, grouped[rp]);
      DoneStep(grouped.Keys, todo, rp);
      todo := todo - {rp};
    }
  }

  lemma DoneStep(keys: set<string>, todo: set<string>, rp: string)
    requires rp in todo
    requires todo <= keys
    ensures (keys - todo) + {rp} == keys - (todo - {rp})
  {
  }

  lemma ProgressInit(files: seq<FileInfo>, folderFilter: seq<string>)
    ensures Progress(files, folderFilter, {}, [], [])
  {
  }

  /** Sorting the lists the loop built gives the resolution. */
  lemma SortedResolution(files: seq<FileInfo>, folderFilter: seq<string>,
                         resolved: seq<ResolvedFile>, conflicts: seq<Conflict>,
                         sortedResolved: seq<ResolvedFile>, sortedConflicts: seq<Conflict>)
    requires Progress(files, folderFilter, RelPaths(files), resolved, conflicts)
    requires multiset(sortedResolved) == multiset(resolved) && StrictlyAscending(sortedResolved, ResolvedKey)
    requires multiset(sortedConflicts) == multiset(conflicts) && StrictlyAscending(sortedConflicts, ConflictKey)
    ensures IsResolution(files, folderFilter, Resolution(sortedResolved, sortedConflicts))
  {
    SameMembers(resolved, sortedResolved);
    SameMembers(conflicts, sortedConflicts);
    assert Contested(files) * RelPaths(files) == Contested(files);
    assert ResolvedPaths(sortedResolved) == ResolvedPaths(resolved);
    assert ConflictPaths(sortedConflicts) == ConflictPaths(conflicts);
  }

  /** The body of the loop over the groups: the resolved entry for one group
      and, when the group has several files, its conflict, appended to the
      lists built so far. */
  method ResolveGroup(files: seq<FileInfo>, folderFilter: seq<string>, ghost done: set<string>,
                      resolved: seq<ResolvedFile>, conflicts: seq<Conflict>, relPath: string, candidates: seq<FileInfo>)
      returns (resolved': seq<ResolvedFile>, conflicts': seq<Conflict>)
    requires Progress(files, folderFilter, done, resolved, conflicts)
    requires candidates == GroupOf(files, relPath) && relPath in RelPaths(files) && relPath !in done
    ensures Progress(files, folderFilter, done + {relPath}, resolved', conflicts')
  {
    GroupsPartition(files, files[0], relPath);
    if |candidates| == 1 {
      var file := candidates[0];
      assert file in candidates;
      var entry := ResolvedFile(file.relPath, file.absPath, file.project, file.priority);
      ResolvedStep(files, folderFilter, done, resolved, entry);
      NoConflictStep(files, folderFilter, done, conflicts, relPath);
      resolved' := resolved + [entry];
      conflicts' := conflicts;
    } else {
      var inFiltered := IsFileInFilteredFolder(relPath, folderFilter);
      var winner: FileInfo;
      if inFiltered {
        winner := ResolveConflictByModTime(candidates);
        assert winner in candidates;
      } else {
        winner := ResolveConflict(candidates);
      }
      var entry := ResolvedFile(winner.relPath, winner.absPath, winner.project, winner.priority);
      var conflict := Conflict(relPath, candidates, winner);
      ResolvedStep(files, folderFilter, done, resolved, entry);
      ConflictStep(files, folderFilter, done, conflicts, conflict);
      resolved' := resolved + [entry];
      conflicts' := conflicts + [conflict];
    }
  }

  /** What the loop over the groups has built once the paths in `done` are
      handled. */
  predicate Progress(files: seq<FileInfo>, folderFilter: seq<string>, done: set<string>,
                     resolved: seq<ResolvedFile>, conflicts: seq<Conflict>) {
    ResolvedSoFar(files, folderFilter, done, resolved) && ConflictsSoFar(files, folderFilter, done, conflicts)
  }

  predicate ResolvedSoFar(files: seq<FileInfo>, folderFilter: seq<string>, done: set<string>, resolved: seq<ResolvedFile>) {
    && ResolvedPaths(resolved) == done
    && DistinctKeys(resolved, ResolvedKey)
    && (forall x :: x in resolved ==> GoodResolved(files, folderFilter, x))
  }

  predicate ConflictsSoFar(files: seq<FileInfo>, folderFilter: seq<string>, done: set<string>, conflicts: seq<Conflict>) {
    && ConflictPaths(conflicts) == Contested(files) * done
    && DistinctKeys(conflicts, ConflictKey)
    && (forall c :: c in conflicts ==> GoodConflict(files, folderFilter, c))
  }

  lemma ResolvedStep(files: seq<FileInfo>, folderFilter: seq<string>, done: set<string>,
                     resolved: seq<ResolvedFile>, entry: ResolvedFile)
    requires ResolvedSoFar(files, folderFilter, done, resolved) && entry.relPath !in done
    requires GoodResolved(files, folderFilter, entry)
    ensures ResolvedSoFar(files, folderFilter, done + {entry.relPath}, resolved + [entry])
  {
    forall i | 0 <= i < |resolved| ensures resolved[i].relPath != entry.relPath {
      assert resolved[i] in resolved;
    }
    KeySetSnoc(resolved, entry, ResolvedKey);
  }

  lemma ConflictStep(files: seq<FileInfo>, folderFilter: seq<string>, done: set<string>,
                     conflicts: seq<Conflict>, c: Conflict)
    requires ConflictsSoFar(files, folderFilter, done, conflicts) && c.relPath !in done
    requires c.relPath in RelPaths(files) && GoodConflict(files, folderFilter, c)
    ensures ConflictsSoFar(files, folderFilter, done + {c.relPath}, conflicts + [c])
  {
    forall i | 0 <= i < |conflicts| ensures conflicts[i].relPath != c.relPath {
      assert conflicts[i] in conflicts;
      assert conflicts[i].relPath in ConflictPaths(conflicts);
    }
    KeySetSnoc(conflicts, c, ConflictKey);
    assert c.relPath in Contested(files);
  }

  lemma NoConflictStep(files: seq<FileInfo>, folderFilter: seq<string>, done: set<string>,
                       conflicts: seq<Conflict>, rp: string)
    requires ConflictsSoFar(files, folderFilter, done, conflicts)
    requires |GroupOf(files, rp)| <= 1
    ensures ConflictsSoFar(files, folderFilter, done + {rp}, conflicts)
  {
    assert rp !in Contested(files);
  }

  lemma SameMembers<T>(a: seq<T>, b: seq<T>)
    requires multiset(a) == multiset(b)
    ensures forall x :: x in a <==> x in b
  {
    forall x ensures x in a <==> x in b {
      assert x in a <==> x in multiset(a);
      assert x in b <==> x in multiset(b);
    }
  }

  // ---------------------------------------------------------------------------
  // Properties of the resolution
  // ---------------------------------------------------------------------------

  /** The resolution does not depend on the order in which the groups were
      visited: any two lists meeting IsResolution are the same lists. */
  lemma ResolutionUnique(files: seq<FileInfo>, folderFilter: seq<string>, a: Resolution, b: Resolution)
    requires IsResolution(files, folderFilter, a) && IsResolution(files, folderFilter, b)
    ensures a == b
  {
    ResolvedUnique(files, folderFilter, a.resolved, b.resolved);
    ConflictsUnique(files, folderFilter, a.conflicts, b.conflicts);
  }

  lemma ResolvedUnique(files: seq<FileInfo>, folderFilter: seq<string>, a: seq<ResolvedFile>, b: seq<ResolvedFile>)
    requires StrictlyAscending(a, ResolvedKey) && StrictlyAscending(b, ResolvedKey)
    requires ResolvedPaths(a) == ResolvedPaths(b)
    requires forall r :: r in a ==> GoodResolved(files, folderFilter, r)
    requires forall r :: r in b ==> GoodResolved(files, folderFilter, r)
    ensures a == b
  {
    StrictlyAscendingUnique(a, b, ResolvedKey);
  }

  lemma ConflictsUnique(files: seq<FileInfo>, folderFilter: seq<string>, a: seq<Conflict>, b: seq<Conflict>)
    requires StrictlyAscending(a, ConflictKey) && StrictlyAscending(b, ConflictKey)
    requires ConflictPaths(a) == ConflictPaths(b)
    requires forall c :: c in a ==> GoodConflict(files, folderFilter, c)
    requires forall c :: c in b ==> GoodConflict(files, folderFilter, c)
    ensures a == b
  {
    StrictlyAscendingUnique(a, b, ConflictKey);
  }

  /** The file recorded as a conflict's winner is the one emitted for its
      path. */
  lemma ConflictWinnerEmitted(files: seq<FileInfo>, folderFilter: seq<string>, res: Resolution, c: Conflict)
    requires IsResolution(files, folderFilter, res) && c in res.conflicts
    ensures ToResolved(c.resolved) in res.resolved
  {
    assert c.relPath in Contested(files);
    assert c.relPath in ResolvedPaths(res.resolved);
    var r :| r in res.resolved && r.relPath == c.relPath;
  }

  /** A path found in one file only is emitted as that file, unchanged. */
  lemma SingleFileEmitted(files: seq<FileInfo>, folderFilter: seq<string>, res: Resolution, f: FileInfo)
    requires IsResolution(files, folderFilter, res) && f in files && |GroupOf(files, f.relPath)| == 1
    ensures ToResolved(f) in res.resolved
    ensures forall c :: c in res.conflicts ==> c.relPath != f.relPath
  {
    GroupsPartition(files, f, f.relPath);
    assert f.relPath in ResolvedPaths(res.resolved);
    var r :| r in res.resolved && r.relPath == f.relPath;
    assert GroupOf(files, f.relPath)[0] == f;
    forall c | c in res.conflicts ensures c.relPath != f.relPath {
      assert GoodConflict(files, folderFilter, c);
    }
  }

  /** HasConflicts. */
  function HasConflicts(conflicts: seq<Conflict>): bool { |conflicts| > 0 }

  /** GetConflictCount. */
  function GetConflictCount(conflicts: seq<Conflict>): int { |conflicts| }

  /** GetResolvedCount. */
  function GetResolvedCount(resolved: seq<ResolvedFile>): int { |resolved| }

  /** The counts of a resolution: one resolved file per distinct path, one
      conflict per path found more than once. */
  lemma ResolutionCounts(files: seq<FileInfo>, folderFilter: seq<string>, res: Resolution)
    requires IsResolution(files, folderFilter, res)
    ensures GetResolvedCount(res.resolved) == |RelPaths(files)|
    ensures GetConflictCount(res.conflicts) == |Contested(files)|
    ensures HasConflicts(res.conflicts) <==> Contested(files) != {}
  {
    ResolvedCount(res.resolved);
    ConflictCount(res.conflicts);
  }

  lemma ResolvedCount(rs: seq<ResolvedFile>)
    requires StrictlyAscending(rs, ResolvedKey)
    ensures |ResolvedPaths(rs)| == |rs|
  {
    StrictlyAscendingCount(rs, ResolvedKey);
  }

  lemma ConflictCount(cs: seq<Conflict>)
    requires StrictlyAscending(cs, ConflictKey)
    ensures |ConflictPaths(cs)| == |cs|
  {
    StrictlyAscendingCount(cs, ConflictKey);
  }
}
