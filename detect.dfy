/** Command `detect`: reading the worktree list that `git worktree list
    --porcelain` prints, and adding the detected .claude directories to a
    group of the configuration. Running git is not modelled: its output is
    an input string. */
module Detect {
  import opened Strings
  import opened Seqs
  import opened Config
  import Paths

  // ---------------------------------------------------------------------------
  // bufio.Scanner with ScanLines
  // ---------------------------------------------------------------------------

  /** A line with one trailing carriage return removed. */
  function DropCR(line: string): (r: string)
    ensures r <= line
    ensures line == [] || line[|line| - 1] != '\r' ==> r == line
  {
    if line != [] && line[|line| - 1] == '\r' then line[..|line| - 1] else line
  }

  /** The lines a scanner reports for `s`: the text between newlines, with no
      empty last line after a final newline, each with a trailing carriage
      return removed. */
  function ScanLines(s: string): (r: seq<string>)
    ensures forall i :: 0 <= i < |r| ==> '\n' !in r[i]
  {
    if s == [] then []
    else
      var parts := Split(s, '\n');
      var kept := if parts[|parts| - 1] == [] then parts[..|parts| - 1] else parts;
      seq(|kept|, i requires 0 <= i < |kept| => DropCR(kept[i]))
  }

  /** Lines written out one per line, each ended by a newline, are read back
      as the same lines. */
  lemma ScanJoinedLines(lines: seq<string>)
    requires |lines| >= 1
    requires forall i :: 0 <= i < |lines| ==> '\n' !in lines[i]
    requires forall i :: 0 <= i < |lines| ==> lines[i] == [] || lines[i][|lines[i]| - 1] != '\r'
    ensures ScanLines(JoinWith(lines, '\n') + "\n") == lines
  {
    var s := JoinWith(lines, '\n') + "\n";
    SplitJoinedLines(lines);
    ScanLinesWithoutCR(s, lines);
  }

  lemma ScanLinesWithoutCR(s: string, lines: seq<string>)
    requires s != [] && Split(s, '\n') == lines + [[]]
    requires forall i :: 0 <= i < |lines| ==> lines[i] == [] || lines[i][|lines[i]| - 1] != '\r'
    ensures ScanLines(s) == lines
  {
    var parts := lines + [[]];
    assert parts[|parts| - 1] == [];
    assert parts[..|parts| - 1] == lines;
    var r := ScanLines(s);
    assert |r| == |lines|;
    forall i | 0 <= i < |lines| ensures r[i] == lines[i] {
      assert r[i] == DropCR(lines[i]);
    }
  }

  lemma SplitJoinedLines(lines: seq<string>)
    requires |lines| >= 1
    requires forall i :: 0 <= i < |lines| ==> '\n' !in lines[i]
    ensures Split(JoinWith(lines, '\n') + "\n", '\n') == lines + [[]]
  {
    var last: seq<string> := [[]];
    var j := JoinWith(lines, '\n');
    Paths.JoinWithAppend(lines, last, '\n');
    assert JoinWith(last, '\n') == [];
    assert JoinWith(lines + last, '\n') == j + "\n";
    Paths.NoSeparatorConcat(lines, last, '\n');
    SplitJoin(lines + last, '\n');
  }

  // ---------------------------------------------------------------------------
  // The porcelain parser of getWorktreePaths
  // ---------------------------------------------------------------------------

  const WorktreePrefix: string := "worktree "

  predicate IsWorktreeLine(line: string) {
    HasPrefix(line, WorktreePrefix)
  }

  /** What follows the "worktree " prefix of each line. */
  function Suffixes(lines: seq<string>): (r: seq<string>)
    ensures |r| == |lines|
  {
    seq(|lines|, i requires 0 <= i < |lines| => TrimPrefix(lines[i], WorktreePrefix))
  }

  /** getWorktreePaths on the output of git: the suffix of every "worktree "
      line, in order; other lines are ignored. */
  method WorktreePaths(output: string) returns (paths: seq<string>)
    ensures paths == Suffixes(Filter(ScanLines(output), IsWorktreeLine))
  {
    paths := ParseLines(ScanLines(output));
  }

  /** The loop of getWorktreePaths over the scanned lines. */
  method ParseLines(lines: seq<string>) returns (paths: seq<string>)
    ensures paths == Suffixes(Filter(lines, IsWorktreeLine))
  {
    paths := [];
    var k := 0;
    while k < |lines|
      invariant k <= |lines|
      invariant paths == Suffixes(Filter(lines[..k], IsWorktreeLine))
    {
      var line := lines[k];
      assert lines[..k + 1] == lines[..k] + [line];
      SuffixesSnoc(lines[..k], line);
      if HasPrefix(line, WorktreePrefix) {
        var path := TrimPrefix(line, WorktreePrefix);
        paths := paths + [path];
      }
      k := k + 1;
    }
    assert lines[..k] == lines;
  }

  lemma {:induction false} SuffixesSnoc(a: seq<string>, line: string)
    ensures Suffixes(Filter(a + [line], IsWorktreeLine))
         == Suffixes(Filter(a, IsWorktreeLine)) + (if IsWorktreeLine(line) then [TrimPrefix(line, WorktreePrefix)] else [])
  {
    var f := Filter(a, IsWorktreeLine);
    FilterAppend(a, [line], IsWorktreeLine);
    assert [line][..0] == [];
    if IsWorktreeLine(line) {
      assert Filter([line], IsWorktreeLine) == [line];
      SuffixesAppend(f, [line]);
    } else {
      assert Filter([line], IsWorktreeLine) == [];
      assert f + [] == f;
    }
  }

  lemma {:induction false} SuffixesAppend(a: seq<string>, b: seq<string>)
    ensures Suffixes(a + b) == Suffixes(a) + Suffixes(b)
  {
    var l, r := Suffixes(a + b), Suffixes(a) + Suffixes(b);
    forall i | 0 <= i < |l| ensures l[i] == r[i] {
      if i >= |a| {
        assert (a + b)[i] == b[i - |a|];
      }
    }
  }

  /** A path is reported exactly when "worktree " followed by it is a line of
      the output. */
  lemma WorktreePathsExactly(lines: seq<string>, p: string)
    ensures p in Suffixes(Filter(lines, IsWorktreeLine)) <==> WorktreePrefix + p in lines
  {
    var f := Filter(lines, IsWorktreeLine);
    if p in Suffixes(f) {
      var i :| 0 <= i < |f| && Suffixes(f)[i] == p;
      assert f[i] in f;
      assert f[i] == WorktreePrefix + p;
    }
    if WorktreePrefix + p in lines {
      var line := WorktreePrefix + p;
      assert line[..|WorktreePrefix|] == WorktreePrefix;
      assert line in f;
      var i :| 0 <= i < |f| && f[i] == line;
      assert Suffixes(f)[i] == p;
    }
  }

  /** The output of two runs read together gives the paths of the first
      followed by those of the second. */
  lemma WorktreePathsAppend(a: seq<string>, b: seq<string>)
    ensures Suffixes(Filter(a + b, IsWorktreeLine))
         == Suffixes(Filter(a, IsWorktreeLine)) + Suffixes(Filter(b, IsWorktreeLine))
  {
    FilterAppend(a, b, IsWorktreeLine);
    SuffixesAppend(Filter(a, IsWorktreeLine), Filter(b, IsWorktreeLine));
  }

  // ---------------------------------------------------------------------------
  // addPathsToGroup
  // ---------------------------------------------------------------------------

  /** The paths as YAML list elements. */
  function Strs(paths: seq<string>): (r: seq<Value>)
    ensures |r| == |paths|
    ensures forall i :: 0 <= i < |paths| ==> r[i] == VStr(paths[i])
  {
    if paths == [] then [] else [VStr(paths[0])] + Strs(paths[1..])
  }

  lemma {:induction false} StrsAppend(a: seq<string>, b: seq<string>)
    ensures Strs(a + b) == Strs(a) + Strs(b)
  {
    var l, r := Strs(a + b), Strs(a) + Strs(b);
    forall i | 0 <= i < |l| ensures l[i] == r[i] {
      if i < |a| {
        assert (a + b)[i] == a[i];
      } else {
        assert (a + b)[i] == b[i - |a|];
      }
    }
  }

  /** `vs` lists the values of `m` in the order of the keys `ks`, each key
      once. */
  ghost predicate ValuesInOrder(vs: seq<Value>, m: map<string, Value>, ks: seq<string>) {
    && |ks| == |vs| == |m|
    && (forall k :: k in ks <==> k in m)
    && (forall i :: 0 <= i < |ks| ==> ks[i] in m && vs[i] == m[ks[i]])
  }

  /** The list a group's `paths` becomes when `paths` are added to it, or
      None when its format is not one the command can extend. The values of
      a map-format group come first in some order of its keys. */
  ghost predicate Extended(old_: PathsValue, paths: seq<string>, new_: Option<PathsValue>) {
    match old_
    case PList(l) => new_ == Some(PList(l + Strs(paths)))
    case PStrList(ss) => new_ == Some(PList(Strs(ss + paths)))
    case PMap(m) =>
      && new_.Some? && new_.value.PList? && |new_.value.l| == |m| + |paths|
      && new_.value.l[|m|..] == Strs(paths)
      && exists ks :: ValuesInOrder(new_.value.l[..|m|], m, ks)
    case POther => new_ == None
  }

  /** addPathsToGroup: an absent group is created holding exactly the paths;
      a list-format group gets them appended; a map-format group becomes the
      list of its values followed by them; any other format is an error that
      changes nothing. No other group, and no priority list, changes. */
  method AddPathsToGroup(cfg: Configuration, groupName: string, paths: seq<string>) returns (err: Option<string>)
    modifies cfg
    ensures groupName !in old(cfg.groups) ==>
              err.None? && cfg.groups == old(cfg.groups)[groupName := Group(PStrList(paths), [])]
    ensures groupName in old(cfg.groups) && old(cfg.groups)[groupName].paths.POther? ==>
              err.Some? && cfg.groups == old(cfg.groups)
    ensures groupName in old(cfg.groups) && !old(cfg.groups)[groupName].paths.POther? ==>
              && err.None? && cfg.groups.Keys == old(cfg.groups).Keys
              && (forall n :: n in old(cfg.groups) && n != groupName ==> cfg.groups[n] == old(cfg.groups)[n])
              && cfg.groups[groupName].priority == old(cfg.groups)[groupName].priority
              && Extended(old(cfg.groups)[groupName].paths, paths, Some(cfg.groups[groupName].paths))
  {
    if groupName !in cfg.groups {
      cfg.groups := cfg.groups[groupName := Group(PStrList(paths), [])];
      return None;
    }
    var group := cfg.groups[groupName];
    if group.paths.POther? {
      return Some("unexpected paths format in group '" + groupName + "'");
    }
    var newPaths := ExtendPaths(group.paths, paths);
    cfg.groups := cfg.groups[groupName := Group(newPaths, group.priority)];
    err := None;
  }

  /** The switch of addPathsToGroup on the format of an existing group. */
  method ExtendPaths(p: PathsValue, paths: seq<string>) returns (r: PathsValue)
    requires !p.POther?
    ensures Extended(p, paths, Some(r))
  {
    match p {
      case PList(l) =>
        r := PList(l + Strs(paths));
      case PMap(m) =>
        var values := MapValues(m);
        r := PList(values + Strs(paths));
        assert r.l[..|m|] == values;
      case PStrList(ss) =>
        r := PList(Strs(ss + paths));
    }
  }

  /** The loop over a map-format group's entries, in no particular order. */
  method MapValues(m: map<string, Value>) returns (values: seq<Value>)
    ensures exists ks :: ValuesInOrder(values, m, ks)
  {
    values := [];
    ghost var ks: seq<string> := [];
    var todo := m.Keys;
    while todo != {}
      invariant todo <= m.Keys && |ks| == |values| && |ks| + |todo| == |m|
      invariant forall k :: k in ks <==> k in m && k !in todo
      invariant forall i :: 0 <= i < |ks| ==> ks[i] in m && values[i] == m[ks[i]]
      decreases |todo|
    {
      var k :| k in todo;
      values := values + [m[k]];
      ks := ks + [k];
      todo := todo - {k};
    }
    assert ValuesInOrder(values, m, ks);
  }

  // ---------------------------------------------------------------------------
  // pluralize
  // ---------------------------------------------------------------------------

  /** pluralize: the ending of "director…" for a count. */
  function Pluralize(count: int): string {
    if count == 1 then "y" else "ies"
  }

  /** With "director" in front, pluralize gives the English noun. */
  lemma DirectoryNoun(count: int)
    ensures count == 1 ==> "director" + Pluralize(count) == "directory"
    ensures count != 1 ==> "director" + Pluralize(count) == "directories"
  {
  }

  /** The noun the success message of `detect` prints after the count of
      added paths, as written: pluralize's ending put after "path". */
  function AddedNoun(count: int): string {
    "path" + Pluralize(count)
  }

  /** The message reads "pathy" for one path and "pathies" for several. */
  lemma AddedNounGarbled()
    ensures AddedNoun(1) == "pathy"
    ensures AddedNoun(2) == "pathies"
  {
  }

  /** The noun the success message evidently means. */
  function PathNoun(count: int): (r: string)
    ensures r == "path" <==> count == 1
    ensures r == "paths" <==> count != 1
  {
    if count == 1 then "path" else "paths"
  }
}
