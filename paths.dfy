/** Lexical path functions: Go's filepath.Clean, Join, Base and IsAbs for '/'
    separated paths, the three `expandPath` helpers of the program, and the
    conversion of a path string into the list of names the filesystem model
    is keyed by. */
module Paths {
  import opened Strings

  /** A location in the filesystem: the names leading to it from the root. */
  type Path = seq<string>

  // ---------------------------------------------------------------------------
  // filepath.Clean
  // ---------------------------------------------------------------------------

  /** One name of a path processed by filepath.Clean: empty names and "." go
      away, ".." removes the name before it (or stays, at the front of a
      relative path; or goes away, at the front of a rooted path). */
  function CleanStep(rooted: bool, stack: seq<string>, name: string): seq<string> {
    if name == "" || name == "." then stack
    else if name == ".." then
      if stack != [] && stack[|stack| - 1] != ".." then stack[..|stack| - 1]
      else if rooted then stack
      else stack + [".."]
    else stack + [name]
  }

  function CleanFrom(rooted: bool, stack: seq<string>, names: seq<string>): seq<string>
    decreases |names|
  {
    if names == [] then stack else CleanFrom(rooted, CleanStep(rooted, stack, names[0]), names[1..])
  }

  predicate IsName(n: string) { n != "" && n != "." && '/' !in n }

  /** The shape filepath.Clean leaves: proper names, with ".." only in a leading
      run and never in a rooted path. */
  predicate CleanNames(rooted: bool, st: seq<string>) {
    && (forall i :: 0 <= i < |st| ==> IsName(st[i]))
    && (forall i :: 0 <= i < |st| && st[i] == ".." ==> !rooted && forall j :: 0 <= j < i ==> st[j] == "..")
  }

  lemma {:induction false} CleanFromShape(rooted: bool, stack: seq<string>, names: seq<string>)
    requires CleanNames(rooted, stack)
    requires forall i :: 0 <= i < |names| ==> '/' !in names[i]
    ensures CleanNames(rooted, CleanFrom(rooted, stack, names))
    decreases |names|
  {
    if names != [] {
      var next := CleanStep(rooted, stack, names[0]);
      assert CleanNames(rooted, next);
      CleanFromShape(rooted, next, names[1..]);
    }
  }

  /** Cleaning names that are already clean changes nothing. */
  lemma {:induction false} CleanFromClean(rooted: bool, stack: seq<string>, names: seq<string>)
    requires CleanNames(rooted, stack + names)
    ensures CleanFrom(rooted, stack, names) == stack + names
    decreases |names|
  {
    if names != [] {
      var st := stack + names;
      assert st[|stack|] == names[0];
      assert CleanStep(rooted, stack, names[0]) == stack + [names[0]] by {
        if names[0] == ".." {
          assert !rooted && forall j :: 0 <= j < |stack| ==> stack[j] == st[j] == "..";
        }
      }
      assert stack + names == (stack + [names[0]]) + names[1..];
      CleanFromClean(rooted, stack + [names[0]], names[1..]);
    }
  }

  lemma {:induction false} CleanFromAppend(rooted: bool, stack: seq<string>, a: seq<string>, b: seq<string>)
    ensures CleanFrom(rooted, stack, a + b) == CleanFrom(rooted, CleanFrom(rooted, stack, a), b)
    decreases |a|
  {
    if a != [] {
      assert (a + b)[1..] == a[1..] + b;
      CleanFromAppend(rooted, CleanStep(rooted, stack, a[0]), a[1..], b);
    } else {
      assert a + b == b;
    }
  }

  /** How filepath.Clean writes a list of names back as a string. */
  function Show(rooted: bool, st: seq<string>): string {
    if rooted then "/" + JoinWith(st, '/')
    else if st == [] then "." else JoinWith(st, '/')
  }

  /** filepath.Clean. */
  function Clean(s: string): string
  {
    var rooted := s != [] && s[0] == '/';
    Show(rooted, CleanFrom(rooted, [], Split(s, '/')))
  }

  lemma {:induction false} JoinWithFirst(parts: seq<string>, sep: char)
    requires parts != [] && parts[0] != []
    ensures JoinWith(parts, sep) != [] && JoinWith(parts, sep)[0] == parts[0][0]
  {
  }

  /** filepath.Clean never returns the empty string, and its result is absolute
      exactly when its argument is. */
  lemma CleanIsAbs(s: string)
    ensures Clean(s) != []
    ensures IsAbs(Clean(s)) <==> IsAbs(s)
  {
    var rooted := s != [] && s[0] == '/';
    var st := CleanFrom(rooted, [], Split(s, '/'));
    CleanFromShape(rooted, [], Split(s, '/'));
    if !rooted && st != [] {
      JoinWithFirst(st, '/');
      assert st[0][0] != '/' by { assert IsName(st[0]); }
    }
  }

  /** Cleaning twice is cleaning once. */
  lemma CleanIdempotent(s: string)
    ensures Clean(Clean(s)) == Clean(s)
  {
    var rooted := s != [] && s[0] == '/';
    var names := Split(s, '/');
    CleanFromShape(rooted, [], names);
    ShowIsClean(rooted, CleanFrom(rooted, [], names));
  }

  /** A list of names in the shape Clean leaves is written back to a string
      that Clean does not change. */
  lemma ShowIsClean(rooted: bool, st: seq<string>)
    requires CleanNames(rooted, st)
    ensures Clean(Show(rooted, st)) == Show(rooted, st)
  {
    var c := Show(rooted, st);
    assert forall i :: 0 <= i < |st| ==> '/' !in st[i] by {
      forall i | 0 <= i < |st| ensures '/' !in st[i] { assert IsName(st[i]); }
    }
    if st == [] {
      if rooted {
        assert c == "/" == JoinWith(["", ""], '/');
        SplitJoin(["", ""], '/');
        assert CleanFrom(true, [], ["", ""]) == [];
      } else {
        assert c == "." == JoinWith(["."], '/');
        SplitJoin(["."], '/');
        assert CleanFrom(false, [], ["."]) == [];
      }
    } else if rooted {
      var parts := [""] + st;
      assert parts[1..] == st;
      assert JoinWith(parts, '/') == c;
      SplitJoin(parts, '/');
      assert [] + st == st;
      CleanFromClean(true, [], st);
      assert CleanFrom(true, [], parts) == CleanFrom(true, [], st);
    } else {
      JoinWithFirst(st, '/');
      assert IsName(st[0]) && st[0][0] in st[0];
      assert c[0] != '/';
      SplitJoin(st, '/');
      assert [] + st == st;
      CleanFromClean(false, [], st);
    }
  }

  predicate IsAbs(s: string) { s != [] && s[0] == '/' }

  // ---------------------------------------------------------------------------
  // filepath.Join, filepath.Base
  // ---------------------------------------------------------------------------

  /** filepath.Join(a, b): empty elements are ignored, the rest are joined with
      a separator and cleaned. */
  function Join(a: string, b: string): string {
    if a == [] && b == [] then []
    else if a == [] then Clean(b)
    else if b == [] then Clean(a)
    else Clean(a + "/" + b)
  }

  /** filepath.Join(a, b, c). */
  function Join3(a: string, b: string, c: string): string {
    var parts := (if a == [] then [] else [a]) + (if b == [] then [] else [b]) + (if c == [] then [] else [c]);
    if parts == [] then [] else Clean(JoinWith(parts, '/'))
  }

  function TrimTrailingSlashes(s: string): (r: string)
    ensures |r| <= |s| && r == s[..|r|]
    ensures r == [] || r[|r| - 1] != '/'
  {
    if s != [] && s[|s| - 1] == '/' then TrimTrailingSlashes(s[..|s| - 1]) else s
  }

  /** filepath.Base: the last name of the path, "." for the empty path and "/"
      for a path of slashes only. The result is never empty and, unless it is
      "/", holds no separator. */
  function Base(s: string): (r: string)
    ensures r != []
    ensures r == "/" || '/' !in r
    ensures IsName(s) ==> r == s
  {
    if s == [] then "."
    else
      var t := TrimTrailingSlashes(s);
      if t == [] then "/"
      else if '/' in t then t[LastIndexOf(t, '/') + 1..]
      else t
  }

  // ---------------------------------------------------------------------------
  // From strings to locations
  // ---------------------------------------------------------------------------

  /** The location a path string names, read from the root; the working
      directory is not modelled, so a relative string is read as if it were
      rooted. */
  function PathOf(s: string): (p: Path)
    ensures forall i :: 0 <= i < |p| ==> IsName(p[i]) && p[i] != ".."
  {
    var p := CleanFrom(true, [], Split(s, '/'));
    CleanFromShape(true, [], Split(s, '/'));
    p
  }

  /** How a path string that is already absolute and clean is rendered. */
  function Render(p: Path): string {
    "/" + JoinWith(p, '/')
  }

  /** Reading back a rendered location gives the location. */
  lemma PathOfRender(p: Path)
    requires forall i :: 0 <= i < |p| ==> IsName(p[i]) && p[i] != ".."
    ensures PathOf(Render(p)) == p
  {
    var parts := if p == [] then ["", ""] else [""] + p;
    assert JoinWith(parts, '/') == Render(p) by {
      if p != [] { assert parts[1..] == p; }
    }
    assert forall i :: 0 <= i < |parts| ==> '/' !in parts[i] by {
      forall i | 0 <= i < |parts| ensures '/' !in parts[i] {
        if p != [] && i > 0 { assert parts[i] == p[i - 1]; }
      }
    }
    SplitJoin(parts, '/');
    if p != [] {
      assert parts[1..] == p;
      assert CleanNames(true, p) && [] + p == p;
      CleanFromClean(true, [], p);
      assert CleanFrom(true, [], parts) == CleanFrom(true, [], p);
    } else {
      assert CleanFrom(true, [], parts) == CleanFrom(true, [], [""]) == [];
    }
  }

  // ---------------------------------------------------------------------------
  // The program's three `expandPath` helpers
  // ---------------------------------------------------------------------------

  /** expandPath of packages syncer and cmd: "~" is the home directory, "~/x"
      and "~x" are x under it; anything else, and every path when the home
      directory is unknown, is returned as it is. */
  function ExpandHome(path: string, home: Option<string>): (r: string)
    ensures path == [] || path[0] != '~' || home.None? ==> r == path
    ensures path == "~" && home.Some? ==> r == home.value
  {
    if path == [] || path[0] != '~' then path
    else if home.None? then path
    else if |path| == 1 then home.value
    else if path[1] == '/' then Join(home.value, path[2..])
    else Join(home.value, path[1..])
  }

  /** expandPath of package utils: the same, except that the rest after "~" is
      joined as it stands (so "~/x" joins "/x"). */
  function ExpandHomeUtils(path: string, home: Option<string>): (r: string)
    ensures path == [] || path[0] != '~' || home.None? ==> r == path
    ensures path == "~" && home.Some? ==> r == home.value
    ensures |path| > 1 && path[0] == '~' && home.Some? ==> r == Join(home.value, path[1..])
  {
    if path == [] || path[0] != '~' then path
    else if home.None? then path
    else if |path| == 1 then home.value
    else Join(home.value, path[1..])
  }

  lemma {:induction false} IndexOfIs(s: string, c: char, i: nat)
    requires i < |s| && s[i] == c && c !in s[..i]
    ensures c in s && IndexOf(s, c) == i
  {
    if i > 0 {
      assert s[..i][0] == s[0];
      assert s[1..][..i - 1] == s[..i][1..];
      IndexOfIs(s[1..], c, i - 1);
    }
  }

  lemma {:induction false} JoinWithAppend(pa: seq<string>, pb: seq<string>, sep: char)
    requires |pa| >= 1 && |pb| >= 1
    ensures JoinWith(pa + pb, sep) == JoinWith(pa, sep) + [sep] + JoinWith(pb, sep)
  {
    if |pa| > 1 {
      assert (pa + pb)[1..] == pa[1..] + pb;
      JoinWithAppend(pa[1..], pb, sep);
    }
  }

  lemma NoSeparatorConcat(pa: seq<string>, pb: seq<string>, sep: char)
    requires forall i :: 0 <= i < |pa| ==> sep !in pa[i]
    requires forall i :: 0 <= i < |pb| ==> sep !in pb[i]
    ensures forall i :: 0 <= i < |pa + pb| ==> sep !in (pa + pb)[i]
  {
    forall i | 0 <= i < |pa + pb| ensures sep !in (pa + pb)[i] {
      if i < |pa| { assert (pa + pb)[i] == pa[i]; } else { assert (pa + pb)[i] == pb[i - |pa|]; }
    }
  }

  lemma SplitAppend(a: string, b: string, sep: char)
    ensures Split(a + [sep] + b, sep) == Split(a, sep) + Split(b, sep)
  {
    var pa, pb := Split(a, sep), Split(b, sep);
    JoinSplit(a, sep);
    JoinSplit(b, sep);
    JoinWithAppend(pa, pb, sep);
    NoSeparatorConcat(pa, pb, sep);
    SplitJoin(pa + pb, sep);
  }

  lemma SplitDoubleSlash(a: string, b: string)
    ensures Split(a + "/" + ("/" + b), '/') == Split(a, '/') + ([""] + Split(b, '/'))
  {
    assert a + "/" + ("/" + b) == a + ['/'] + ([] + ['/'] + b);
    SplitAppend(a, [] + ['/'] + b, '/');
    SplitAppend([], b, '/');
    assert Split([], '/') == [""];
  }

  /** A doubled separator in front of the last part does not change the
      cleaned result. */
  lemma CleanDoubleSlash(a: string, b: string)
    requires a != []
    ensures Clean(a + "/" + ("/" + b)) == Clean(a + "/" + b)
  {
    var rooted := a[0] == '/';
    assert (a + "/" + ("/" + b))[0] == a[0] && (a + "/" + b)[0] == a[0];
    SplitDoubleSlash(a, b);
    assert a + "/" + b == a + ['/'] + b;
    SplitAppend(a, b, '/');
    var sa := Split(a, '/');
    var sb := Split(b, '/');
    CleanFromAppend(rooted, [], sa, [""] + sb);
    CleanFromAppend(rooted, [], sa, sb);
    var mid := CleanFrom(rooted, [], sa);
    assert CleanFrom(rooted, mid, [""] + sb) == CleanFrom(rooted, mid, sb) by {
      assert ([""] + sb)[1..] == sb;
    }
  }

  /** A trailing separator does not change the cleaned result. */
  lemma CleanTrailingSlash(a: string)
    requires a != []
    ensures Clean(a + "/") == Clean(a)
  {
    var rooted := a[0] == '/';
    assert (a + "/")[0] == a[0];
    assert a + "/" == a + ['/'] + [];
    SplitAppend(a, [], '/');
    assert Split([], '/') == [""];
    CleanFromAppend(rooted, [], Split(a, '/'), [""]);
  }

  /** The home-directory helpers of the three packages agree wherever the home
      directory is known and not empty. */
  lemma ExpandHomeAgree(path: string, home: Option<string>)
    requires home.Some? ==> home.value != []
    ensures ExpandHome(path, home) == ExpandHomeUtils(path, home)
  {
    if path != [] && path[0] == '~' && home.Some? && |path| > 1 {
      var h := home.value;
      if path[1] == '/' {
        var rest := path[2..];
        assert path[1..] == "/" + rest;
        if rest == [] {
          assert path[1..] == "/";
          assert ExpandHomeUtils(path, home) == Clean(h + "/" + ("/" + []));
          CleanDoubleSlash(h, []);
          assert h + "/" + [] == h + "/";
          CleanTrailingSlash(h);
        } else {
          CleanDoubleSlash(h, rest);
        }
      }
    }
  }
}
