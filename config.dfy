/** Package config: the groups of projects read from the configuration file,
    and how a group's `paths` and `priority` entries become the list of
    projects with their priorities. The YAML file itself is not modelled:
    a configuration is the already decoded value. */
module Config {
  import opened Strings
  import Paths

  /** A decoded YAML value inside `paths`: a string, or anything else. */
  datatype Value = VStr(s: string) | VOther

  /** The dynamic type of a group's `paths`: a map from alias to path, a list
      of paths, a Go []string (what detection stores before the file is
      written back), or any other value. */
  datatype PathsValue =
    | PMap(m: map<string, Value>)
    | PList(l: seq<Value>)
    | PStrList(strs: seq<string>)
    | POther

  datatype Group = Group(paths: PathsValue, priority: seq<string>)

  datatype ProjectPath = ProjectPath(alias: string, path: string, priority: int)

  // ---------------------------------------------------------------------------
  // Priorities
  // ---------------------------------------------------------------------------

  /** The priority number a key receives from the priority list: one more
      than the index of its last occurrence, or 0 when it does not occur. */
  function PriorityIndex(prio: seq<string>, key: string): (n: nat)
    ensures n <= |prio|
    ensures n == 0 <==> key !in prio
    ensures n > 0 ==> prio[n - 1] == key && key !in prio[n..]
  {
    if prio == [] then 0
    else if prio[|prio| - 1] == key then |prio|
    else
      var n := PriorityIndex(prio[..|prio| - 1], key);
      assert prio[n..] == prio[..|prio| - 1][n..] + [prio[|prio| - 1]];
      n
  }

  /** The priority of a project under a non-empty priority list: its alias
      decides, else its path, else it comes after everything listed. */
  function PriorityFor(prio: seq<string>, alias: string, path: string): int {
    if PriorityIndex(prio, alias) > 0 then PriorityIndex(prio, alias)
    else if PriorityIndex(prio, path) > 0 then PriorityIndex(prio, path)
    else |prio| + 1
  }

  /** Every priority lies in 1..|prio|+1, and the last value is given exactly
      to the projects whose alias and path are both unlisted. */
  lemma PriorityForRange(prio: seq<string>, alias: string, path: string)
    ensures 1 <= PriorityFor(prio, alias, path) <= |prio| + 1
    ensures PriorityFor(prio, alias, path) == |prio| + 1 <==> alias !in prio && path !in prio
  {
  }

  /** A listed alias takes the position of its last occurrence, whatever the
      position of the project's path. */
  lemma AliasDecides(prio: seq<string>, alias: string, path: string, i: nat)
    requires i < |prio| && prio[i] == alias && alias !in prio[i + 1..]
    ensures PriorityFor(prio, alias, path) == i + 1
  {
    var n := PriorityIndex(prio, alias);
    assert forall j :: n <= j < |prio| ==> prio[j] != alias by {
      forall j | n <= j < |prio| ensures prio[j] != alias {
        assert prio[j] == prio[n..][j - n];
      }
    }
    assert forall j :: i + 1 <= j < |prio| ==> prio[j] != alias by {
      forall j | i + 1 <= j < |prio| ensures prio[j] != alias {
        assert prio[j] == prio[i + 1..][j - i - 1];
      }
    }
  }

  /** The priority each project of `projects` gets: from the list when it is
      non-empty, otherwise its 1-based position. */
  ghost predicate Prioritised(projects: seq<ProjectPath>, prio: seq<string>) {
    forall i :: 0 <= i < |projects| ==>
      projects[i].priority == (if |prio| > 0 then PriorityFor(prio, projects[i].alias, projects[i].path) else i + 1)
  }

  // ---------------------------------------------------------------------------
  // GetProjectPaths
  // ---------------------------------------------------------------------------

  /** The projects of a map-format group: one per entry, aliased by its key. */
  ghost predicate FromMap(projects: seq<ProjectPath>, m: map<string, Value>) {
    && |projects| == |m|
    && (forall i :: 0 <= i < |projects| ==> projects[i].alias in m && m[projects[i].alias] == VStr(projects[i].path))
    && (forall i, j :: 0 <= i < j < |projects| ==> projects[i].alias != projects[j].alias)
  }

  /** The projects of a list-format group: one per element, in order, aliased
      by the base name of the path. */
  ghost predicate FromList(projects: seq<ProjectPath>, l: seq<Value>) {
    && |projects| == |l|
    && forall i :: 0 <= i < |l| ==>
         l[i] == VStr(projects[i].path) && projects[i].alias == Paths.Base(projects[i].path)
  }

  /** GetProjectPaths. The map entries are visited in no particular order. */
  method GetProjectPaths(g: Group) returns (r: Result<seq<ProjectPath>>)
    ensures (g.paths.PStrList? || g.paths.POther?) ==> r.Err?
    ensures g.paths.PMap? ==> (r.Ok? <==> forall a :: a in g.paths.m ==> g.paths.m[a].VStr?)
    ensures g.paths.PList? ==> (r.Ok? <==> forall i :: 0 <= i < |g.paths.l| ==> g.paths.l[i].VStr?)
    ensures r.Ok? && g.paths.PMap? ==> FromMap(r.value, g.paths.m)
    ensures r.Ok? && g.paths.PList? ==> FromList(r.value, g.paths.l)
    ensures r.Ok? ==> Prioritised(r.value, g.priority)
  {
    var projects: seq<ProjectPath>;
    match g.paths {
      case PMap(m) =>
        var res := ProjectsOfMap(m);
        if res.Err? {
          return Err(res.msg);
        }
        projects := res.value;
      case PList(l) =>
        var res := ProjectsOfList(l);
        if res.Err? {
          return Err(res.msg);
        }
        projects := res.value;
      case _ =>
        return Err("invalid paths format: must be map or list");
    }
    projects := AssignPriorities(projects, g.priority);
    r := Ok(projects);
  }

  /** The alias-format loop over the entries of the map. */
  method ProjectsOfMap(m: map<string, Value>) returns (r: Result<seq<ProjectPath>>)
    ensures r.Ok? <==> forall a :: a in m ==> m[a].VStr?
    ensures r.Ok? ==> FromMap(r.value, m)
  {
    var projects: seq<ProjectPath> := [];
    var todo := m.Keys;
    while todo != {}
      invariant todo <= m.Keys
      invariant |projects| + |todo| == |m|
      invariant forall i :: 0 <= i < |projects| ==>
                  projects[i].alias in m - todo && m[projects[i].alias] == VStr(projects[i].path)
      invariant forall a :: a in m.Keys - todo ==> m[a].VStr?
      invariant forall i, j :: 0 <= i < j < |projects| ==> projects[i].alias != projects[j].alias
      decreases |todo|
    {
      var alias :| alias in todo;
      if !m[alias].VStr? {
        return Err("invalid path value for alias '" + alias + "'");
      }
      projects := projects + [ProjectPath(alias, m[alias].s, 0)];
      todo := todo - {alias};
    }
    r := Ok(projects);
  }

  /** The list-format loop. */
  method ProjectsOfList(l: seq<Value>) returns (r: Result<seq<ProjectPath>>)
    ensures r.Ok? <==> forall i :: 0 <= i < |l| ==> l[i].VStr?
    ensures r.Ok? ==> FromList(r.value, l)
  {
    var projects: seq<ProjectPath> := [];
    for i := 0 to |l|
      invariant |projects| == i
      invariant forall j :: 0 <= j < i ==> l[j] == VStr(projects[j].path) && projects[j].alias == Paths.Base(projects[j].path)
    {
      if !l[i].VStr? {
        return Err("invalid path value at index");
      }
      projects := projects + [ProjectPath(Paths.Base(l[i].s), l[i].s, 0)];
    }
    r := Ok(projects);
  }

  /** The priority assignment: through a map from listed name to its last
      position when the list is non-empty, by position otherwise. */
  method AssignPriorities(projects: seq<ProjectPath>, prio: seq<string>) returns (r: seq<ProjectPath>)
    ensures |r| == |projects|
    ensures forall i :: 0 <= i < |r| ==> r[i].alias == projects[i].alias && r[i].path == projects[i].path
    ensures Prioritised(r, prio)
  {
    if |prio| > 0 {
      var priorityMap := PriorityMap(prio);
      r := ByPriorityMap(projects, prio, priorityMap);
    } else {
      r := ByPosition(projects);
    }
  }

  /** The first loop of the assignment: each listed name maps to its last
      position, counted from 1. */
  method PriorityMap(prio: seq<string>) returns (priorityMap: map<string, int>)
    ensures forall k :: k in priorityMap <==> k in prio
    ensures forall k :: k in priorityMap ==> priorityMap[k] == PriorityIndex(prio, k)
  {
    priorityMap := map[];
    for i := 0 to |prio|
      invariant forall k :: k in priorityMap <==> k in prio[..i]
      invariant forall k :: k in priorityMap ==> priorityMap[k] == PriorityIndex(prio[..i], k)
    {
      assert prio[..i + 1] == prio[..i] + [prio[i]];
      priorityMap := priorityMap[prio[i] := i + 1];
    }
    assert prio[..|prio|] == prio;
  }

  /** The second loop: the alias is looked up first, then the path, and an
      unlisted project gets the value after the last position. */
  method ByPriorityMap(projects: seq<ProjectPath>, prio: seq<string>, priorityMap: map<string, int>)
    returns (r: seq<ProjectPath>)
    requires |prio| > 0
    requires forall k :: k in priorityMap <==> k in prio
    requires forall k :: k in priorityMap ==> priorityMap[k] == PriorityIndex(prio, k)
    ensures |r| == |projects|
    ensures forall i :: 0 <= i < |r| ==> r[i].alias == projects[i].alias && r[i].path == projects[i].path
    ensures Prioritised(r, prio)
  {
    r := projects;
    for i := 0 to |r|
      invariant |r| == |projects|
      invariant forall j :: 0 <= j < |r| ==> r[j].alias == projects[j].alias && r[j].path == projects[j].path
      invariant forall j :: 0 <= j < i ==> r[j].priority == PriorityFor(prio, r[j].alias, r[j].path)
    {
      var p;
      if r[i].alias in priorityMap {
        p := priorityMap[r[i].alias];
      } else if r[i].path in priorityMap {
        p := priorityMap[r[i].path];
      } else {
        p := |prio| + 1;
      }
      r := r[i := r[i].(priority := p)];
    }
  }

  /** Without a priority list, projects are numbered by position from 1. */
  method ByPosition(projects: seq<ProjectPath>) returns (r: seq<ProjectPath>)
    ensures |r| == |projects|
    ensures forall i :: 0 <= i < |r| ==> r[i].alias == projects[i].alias && r[i].path == projects[i].path
    ensures forall i :: 0 <= i < |r| ==> r[i].priority == i + 1
  {
    r := projects;
    for i := 0 to |r|
      invariant |r| == |projects|
      invariant forall j :: 0 <= j < |r| ==> r[j].alias == projects[j].alias && r[j].path == projects[j].path
      invariant forall j :: 0 <= j < i ==> r[j].priority == j + 1
    {
      r := r[i := r[i].(priority := i + 1)];
    }
  }

  // ---------------------------------------------------------------------------
  // The configuration
  // ---------------------------------------------------------------------------

  class Configuration {
    var groups: map<string, Group>

    constructor (groups: map<string, Group>)
      ensures this.groups == groups
    {
      this.groups := groups;
    }

    /** GetGroup: the named group, or an error when there is none. */
    function GetGroup(name: string): (r: Result<Group>)
      reads this
      ensures r.Ok? <==> name in groups
      ensures r.Ok? ==> r.value == groups[name]
    {
      if name in groups then Ok(groups[name]) else Err("group '" + name + "' not found in configuration")
    }

    /** ListGroups: every group name once, in no particular order. */
    method ListGroups() returns (names: seq<string>)
      ensures forall n :: n in names <==> n in groups
      ensures |names| == |groups|
      ensures forall i, j :: 0 <= i < j < |names| ==> names[i] != names[j]
    {
      names := [];
      var todo := groups.Keys;
      while todo != {}
        invariant todo <= groups.Keys
        invariant forall n :: n in names <==> n in groups.Keys - todo
        invariant |names| + |todo| == |groups|
        invariant forall i, j :: 0 <= i < j < |names| ==> names[i] != names[j]
        decreases |todo|
      {
        var n :| n in todo;
        assert n !in names;
        assert |todo - {n}| == |todo| - 1;
        names := names + [n];
        todo := todo - {n};
        assert forall m :: m in names <==> m in groups.Keys - todo by {
          forall m ensures m in names <==> m in groups.Keys - todo {
            assert m in names <==> m in names[..|names| - 1] || m == n;
          }
        }
      }
    }
  }
}
