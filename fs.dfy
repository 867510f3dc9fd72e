/** Package utils: the file operations the commands use, over an abstract
    file system, and the check applied to user-supplied paths inside a
    .claude directory.

    The file system is a map from locations (the names from the root down,
    see Paths.Path) to nodes. Every proper prefix of a stored location is a
    stored directory. The working directory is taken to be the root, so a
    relative path string names the same location as the string with a '/'
    in front. */
module FileUtils {
  import opened Strings
  import opened Paths

  datatype Node = File(data: seq<bv8>, mode: int, modTime: int) | Dir

  type Tree = map<Path, Node>

  /** The root is a directory, and every ancestor of a stored node is a
      stored directory. */
  predicate WellFormed(t: Tree) {
    && [] in t && t[[]].Dir?
    && forall p, i :: p in t && 0 <= i < |p| ==> p[..i] in t && t[p[..i]].Dir?
  }

  /** Every name in `p` is a real name: not empty, not "." or "..", without
      a separator. */
  predicate GoodPath(p: Path) {
    forall i :: 0 <= i < |p| ==> IsName(p[i]) && p[i] != ".."
  }

  predicate GoodNames(t: Tree) {
    forall p :: p in t ==> GoodPath(p)
  }

  lemma GoodPathParts(a: Path, b: Path)
    requires GoodPath(a) && GoodPath(b)
    ensures GoodPath(a + b)
  {
    forall i | 0 <= i < |a + b| ensures IsName((a + b)[i]) && (a + b)[i] != ".." {
      if i >= |a| { assert (a + b)[i] == b[i - |a|]; }
    }
  }

  lemma GoodPathSlice(p: Path, i: nat, j: nat)
    requires GoodPath(p) && i <= j <= |p|
    ensures GoodPath(p[i..j])
  {
    forall k | 0 <= k < j - i ensures IsName(p[i..j][k]) && p[i..j][k] != ".." {
      assert p[i..j][k] == p[i + k];
    }
  }

  /** A node moved or copied from `o` below `s` to the same place below `d`
      lands on a path of real names. */
  lemma GoodTarget(d: Path, s: Path, o: Path)
    requires GoodPath(d) && GoodPath(o) && s <= o
    ensures GoodPath(d + o[|s|..])
  {
    GoodPathSlice(o, |s|, |o|);
    GoodPathParts(d, o[|s|..]);
  }

  lemma AncestorIn(t: Tree, q: Path, n: nat)
    requires WellFormed(t) && q in t && n <= |q|
    ensures q[..n] in t && q[..n] <= q
    ensures n < |q| ==> t[q[..n]].Dir?
  {
    if n == |q| { assert q[..n] == q; }
  }

  /** The directory that holds `p` (filepath.Dir, on the cleaned location). */
  function Parent(p: Path): Path {
    if p == [] then [] else p[..|p| - 1]
  }

  // ---------------------------------------------------------------------------
  // os.MkdirAll
  // ---------------------------------------------------------------------------

  /** No file stands where MkdirAll(p) needs a directory. */
  predicate CanMkdirAll(t: Tree, p: Path) {
    forall i :: 0 <= i <= |p| && p[..i] in t ==> t[p[..i]].Dir?
  }

  /** os.MkdirAll: `p` and its ancestors that are missing become directories. */
  function MkdirAll(t: Tree, p: Path): (r: Tree)
    ensures forall q :: q in t ==> q in r && r[q] == t[q]
    ensures forall i :: 0 <= i <= |p| ==> p[..i] in r
    ensures forall q :: q in r && q !in t ==> q <= p && r[q] == Dir
  {
    var added := map q | q in (set i | 0 <= i <= |p| :: p[..i]) && q !in t :: Dir;
    t + added
  }

  lemma MkdirAllGoodNames(t: Tree, p: Path)
    requires GoodNames(t) && GoodPath(p)
    ensures GoodNames(MkdirAll(t, p))
  {
    forall q | q in MkdirAll(t, p) ensures GoodPath(q) {
      if q !in t {
        assert q == p[..|q|];
        GoodPathSlice(p, 0, |q|);
        assert p[0..|q|] == p[..|q|];
      }
    }
  }

  /** A second MkdirAll of the same path changes nothing. */
  lemma MkdirAllAgain(t: Tree, p: Path)
    requires WellFormed(t) && CanMkdirAll(t, p)
    ensures CanMkdirAll(MkdirAll(t, p), p) && MkdirAll(MkdirAll(t, p), p) == MkdirAll(t, p)
  {
    MkdirAllWellFormed(t, p);
  }

  lemma MkdirAllWellFormed(t: Tree, p: Path)
    requires WellFormed(t) && CanMkdirAll(t, p)
    ensures WellFormed(MkdirAll(t, p))
    ensures forall i :: 0 <= i <= |p| ==> MkdirAll(t, p)[p[..i]].Dir?
  {
    var r := MkdirAll(t, p);
    forall i | 0 <= i <= |p| ensures r[p[..i]].Dir? {
      if p[..i] !in t { assert r[p[..i]] == Dir; }
    }
    forall q, i | q in r && 0 <= i < |q| ensures q[..i] in r && r[q[..i]].Dir? {
      if q !in t {
        assert q <= p;
        assert q[..i] == p[..i];
      }
    }
  }

  // ---------------------------------------------------------------------------
  // os.RemoveAll
  // ---------------------------------------------------------------------------

  /** os.RemoveAll: `p` and everything below it are gone (the root itself
      always stays). */
  function RemoveAll(t: Tree, p: Path): (r: Tree)
    ensures forall q :: q in r <==> q in t && (q == [] || !(p <= q))
    ensures forall q :: q in r ==> r[q] == t[q]
  {
    map q | q in t && (q == [] || !(p <= q)) :: t[q]
  }

  lemma RemoveAllWellFormed(t: Tree, p: Path)
    requires WellFormed(t)
    ensures WellFormed(RemoveAll(t, p))
  {
    var r := RemoveAll(t, p);
    forall q, i | q in r && 0 <= i < |q| ensures q[..i] in r && r[q[..i]].Dir? {
      assert q[..i] <= q;
    }
  }

  // ---------------------------------------------------------------------------
  // Writing one file
  // ---------------------------------------------------------------------------

  /** The tree after the parents of `p` are created and `p` holds `n`. */
  function WriteAt(t: Tree, p: Path, n: Node): Tree {
    MkdirAll(t, Parent(p))[p := n]
  }

  lemma WriteAtWellFormed(t: Tree, p: Path, n: Node)
    requires WellFormed(t) && p != [] && CanMkdirAll(t, Parent(p))
    requires p in t ==> t[p].Dir? == n.Dir?
    requires n.File? ==> p !in t || t[p].File?
    ensures WellFormed(WriteAt(t, p, n))
  {
    var m := MkdirAll(t, Parent(p));
    MkdirAllWellFormed(t, Parent(p));
    var r := m[p := n];
    forall q, i | q in r && 0 <= i < |q| ensures q[..i] in r && r[q[..i]].Dir? {
      if q == p {
        assert q[..i] == Parent(p)[..i];
        assert q[..i] != p;
      } else {
        assert q in m;
        if q[..i] == p {
          // p already stood in the tree as an ancestor of q, so as a directory
          assert q in t || q <= Parent(p);
          if q in t {
            assert t[p].Dir?;
          }
        }
      }
    }
  }

  /** The node `src` leaves at `dst` when copied at time `now`: the source's
      bytes and permission bits, with a new modification time. */
  function CopiedNode(n: Node, now: int): Node
    requires n.File?
  {
    File(n.data, n.mode, now)
  }

  // ---------------------------------------------------------------------------
  // os.Rename
  // ---------------------------------------------------------------------------

  /** rename(2) succeeds: the source exists and differs from the destination,
      the destination is not inside the source, and a destination that
      already exists is a file replaced by a file or an empty directory
      replaced by a directory (a case os.Rename refuses before it reaches
      rename(2): see OsRename). */
  predicate RenameOk(t: Tree, s: Path, d: Path) {
    && s in t && s != d && !(s < d)
    && (d in t ==>
          || (t[s].File? && t[d].File?)
          || (t[s].Dir? && t[d].Dir? && forall q :: q in t && d <= q ==> q == d))
  }

  /** os.Rename of `s` to `d` on Unix, `sameName` telling whether the two
      names are the same string, and `fault` an I/O error of rename(2).
      Go first looks at the new name: an existing directory there is
      refused with EEXIST, unless the names are different strings for the
      same file, which rename(2) leaves as it is. Past that check, a file
      renamed onto itself is left as it is, and otherwise rename(2)
      applies. None is a failure, which changes nothing. */
  function OsRename(t: Tree, s: Path, d: Path, sameName: bool, fault: bool): (r: Option<Tree>)
    ensures d in t && t[d].Dir? && (s != d || sameName) ==> r.None?
    ensures r.Some? && r.value != t ==> RenameOk(t, s, d) && !fault && (d in t ==> t[s].File? && t[d].File?)
    ensures d !in t && RenameOk(t, s, d) && !fault ==> r == Some(Moved(t, s, d))
  {
    if d in t && t[d].Dir? then
      if s == d && !sameName then Some(t) else None
    else if s == d && s in t then Some(t)
    else if RenameOk(t, s, d) && !fault then Some(Moved(t, s, d))
    else None
  }

  /** The locations the subtree at `s` occupies once moved under `d`. */
  function MovedKeys(t: Tree, s: Path, d: Path): (r: set<Path>)
    ensures forall q :: q in t && s <= q ==> d + q[|s|..] in r
  {
    set q | q in t && s <= q :: d + q[|s|..]
  }

  /** The tree after renaming `s` to `d`: whatever stood at or below `d`
      is replaced by the subtree that stood at `s`, moved under `d`. */
  function Moved(t: Tree, s: Path, d: Path): Tree {
    var rest := map q | q in t && !(s <= q) && !(d <= q) :: t[q];
    rest + map k | k in MovedKeys(t, s, d) && d <= k && s + k[|d|..] in t :: t[s + k[|d|..]]
  }

  lemma MovedAt(t: Tree, s: Path, d: Path, q: Path)
    requires q in t && s <= q
    ensures d + q[|s|..] in Moved(t, s, d) && Moved(t, s, d)[d + q[|s|..]] == t[q]
  {
    var k := d + q[|s|..];
    assert k in MovedKeys(t, s, d);
    assert s + k[|d|..] == q;
  }

  /** The root can never be the target of a successful rename. */
  lemma RenameOkNotRoot(t: Tree, s: Path, d: Path)
    requires WellFormed(t) && RenameOk(t, s, d)
    ensures d != []
  {
    assert [] <= s;
  }

  /** A node that is neither at or below the source nor at or below the
      destination keeps its place and content. */
  lemma MovedElsewhere(t: Tree, s: Path, d: Path, q: Path)
    requires q in t && !(s <= q) && !(d <= q)
    ensures q in Moved(t, s, d) && Moved(t, s, d)[q] == t[q]
  {
    assert q !in MovedKeys(t, s, d);
  }

  lemma MovedGoodNames(t: Tree, s: Path, d: Path)
    requires GoodNames(t) && GoodPath(d)
    ensures GoodNames(Moved(t, s, d))
  {
    forall k | k in Moved(t, s, d) ensures GoodPath(k) {
      if k !in t {
        var o := s + k[|d|..];
        GoodTarget(d, s, o);
        assert d + o[|s|..] == k;
      }
    }
  }

  lemma MovedWellFormed(t: Tree, s: Path, d: Path)
    requires WellFormed(t) && RenameOk(t, s, d)
    requires d != [] && Parent(d) in t && t[Parent(d)].Dir?
    ensures WellFormed(Moved(t, s, d))
  {
    var r := Moved(t, s, d);
    MovedElsewhere(t, s, d, []);
    forall k, i | k in r && 0 <= i < |k| ensures k[..i] in r && r[k[..i]].Dir? {
      if d <= k {
        MovedAncestor(t, s, d, k, i);
      } else {
        assert k in t && !(s <= k);
        MovedElsewhere(t, s, d, k[..i]);
      }
    }
  }

  lemma MovedAncestor(t: Tree, s: Path, d: Path, k: Path, i: nat)
    requires WellFormed(t) && RenameOk(t, s, d)
    requires d != [] && Parent(d) in t && t[Parent(d)].Dir?
    requires k in Moved(t, s, d) && d <= k && i < |k|
    ensures k[..i] in Moved(t, s, d) && Moved(t, s, d)[k[..i]].Dir?
  {
    if i < |d| {
      var p := Parent(d);
      assert k[..i] == p[..i];
      assert p[..i] in t && t[p[..i]].Dir? by {
        if i == |p| { assert p[..i] == p; }
      }
      assert k[..i] <= d;
      MovedElsewhere(t, s, d, k[..i]);
    } else {
      MovedAncestorBelow(t, s, d, k, i);
    }
  }

  /** The part of MovedAncestor at or below the destination. */
  lemma MovedAncestorBelow(t: Tree, s: Path, d: Path, k: Path, i: nat)
    requires WellFormed(t)
    requires k in Moved(t, s, d) && d <= k && |d| <= i < |k|
    ensures k[..i] in Moved(t, s, d) && Moved(t, s, d)[k[..i]].Dir?
  {
    assert k in MovedKeys(t, s, d) && s + k[|d|..] in t;
    var q := s + k[|d|..];
    var q' := q[..|s| + i - |d|];
    assert q' in t && t[q'].Dir?;
    assert q'[|s|..] == k[|d|..i];
    assert k[..i] == d + k[|d|..i];
    MovedAt(t, s, d, q');
  }

  /** After a rename the source is gone and the destination holds the
      source's subtree. */
  lemma MovedSourceToDestination(t: Tree, s: Path, d: Path)
    requires WellFormed(t) && RenameOk(t, s, d)
    ensures s !in Moved(t, s, d)
    ensures d in Moved(t, s, d) && Moved(t, s, d)[d] == t[s]
    ensures forall q :: q in t && s <= q ==> d + q[|s|..] in Moved(t, s, d) && Moved(t, s, d)[d + q[|s|..]] == t[q]
  {
    MovedAt(t, s, d, s);
    assert d + s[|s|..] == d;
    forall q | q in t && s <= q ensures d + q[|s|..] in Moved(t, s, d) && Moved(t, s, d)[d + q[|s|..]] == t[q] {
      MovedAt(t, s, d, q);
    }
    if d <= s {
      // the destination would be a directory holding the source
      assert s[..|d|] == d;
      assert d in t && t[d].Dir?;
    }
  }

  // ---------------------------------------------------------------------------
  // Copying a directory tree
  // ---------------------------------------------------------------------------

  /** `q`, strictly below the copied directory `s`, is reached by the copy:
      no directory on the way down to it, and `q` itself if it is a
      directory, carries an excluded name. */
  predicate Copied(t: Tree, s: Path, ex: seq<string>, q: Path) {
    s < q && forall j :: |s| < j <= |q| ==> !(q[..j] in t && t[q[..j]].Dir? && q[j - 1] in ex)
  }

  /** The nodes the copy of `s` reads. */
  function CopySet(t: Tree, s: Path, ex: seq<string>): set<Path> {
    set q | q in t && Copied(t, s, ex, q)
  }

  /** Where the copies of the nodes below `s` go under `d`. */
  function CopyKeys(t: Tree, s: Path, d: Path, ex: seq<string>): (r: set<Path>)
    ensures forall q :: q in CopySet(t, s, ex) ==> d + q[|s|..] in r
  {
    set q | q in CopySet(t, s, ex) :: d + q[|s|..]
  }

  /** What a copied node becomes: a directory stays a directory, and a file
      copied onto itself is left alone. */
  function CopyNode(n: Node, same: bool, now: int): Node {
    if n.Dir? || same then n else CopiedNode(n, now)
  }

  /** The tree after `d` and its parents are created and every node below
      `s` that the exclusion does not prune is copied to the same place
      below `d`. */
  function CopyTree(t: Tree, s: Path, d: Path, ex: seq<string>, now: int): Tree {
    MkdirAll(t, d) + CopyMap(t, s, d, ex, now)
  }

  /** The copies themselves, keyed by where they land. */
  function CopyMap(t: Tree, s: Path, d: Path, ex: seq<string>, now: int): (r: Tree)
    ensures forall k :: k in r ==>
              && d < k && s + k[|d|..] in t && s + k[|d|..] in CopySet(t, s, ex)
              && r[k] == CopyNode(t[s + k[|d|..]], s == d, now)
  {
    map k | k in CopyKeys(t, s, d, ex) && d <= k && s + k[|d|..] in CopySet(t, s, ex)
      :: CopyNode(t[s + k[|d|..]], s == d, now)
  }

  /** No copied file lands on a directory and no copied directory on a file. */
  predicate CopyFits(t: Tree, s: Path, d: Path, ex: seq<string>) {
    forall q :: q in CopySet(t, s, ex) && d + q[|s|..] in t ==> t[d + q[|s|..]].Dir? == t[q].Dir?
  }

  lemma CopyMapAt(t: Tree, s: Path, d: Path, ex: seq<string>, now: int, q: Path)
    requires q in CopySet(t, s, ex)
    ensures d + q[|s|..] in CopyMap(t, s, d, ex, now)
    ensures CopyMap(t, s, d, ex, now)[d + q[|s|..]] == CopyNode(t[q], s == d, now)
  {
    var k := d + q[|s|..];
    assert k[|d|..] == q[|s|..];
    assert s + k[|d|..] == q;
  }

  lemma CopyTreeAt(t: Tree, s: Path, d: Path, ex: seq<string>, now: int, q: Path)
    requires q in CopySet(t, s, ex)
    ensures d + q[|s|..] in CopyTree(t, s, d, ex, now)
    ensures CopyTree(t, s, d, ex, now)[d + q[|s|..]] == CopyNode(t[q], s == d, now)
  {
    var k := d + q[|s|..];
    assert k[|d|..] == q[|s|..];
    assert s + k[|d|..] == q;
  }

  /** Prefixes of a copied node below `s` are copied too. */
  lemma CopiedPrefix(t: Tree, s: Path, ex: seq<string>, q: Path, i: nat)
    requires WellFormed(t) && q in CopySet(t, s, ex) && |s| < i <= |q|
    ensures q[..i] in CopySet(t, s, ex)
  {
    var p := q[..i];
    assert p in t by {
      if i == |q| { assert p == q; }
    }
    forall j | |s| < j <= |p| ensures !(p[..j] in t && t[p[..j]].Dir? && p[j - 1] in ex) {
      assert p[..j] == q[..j];
    }
  }

  lemma CopyTreeGoodNames(t: Tree, s: Path, d: Path, ex: seq<string>, now: int)
    requires GoodNames(t) && GoodPath(d)
    ensures GoodNames(CopyTree(t, s, d, ex, now))
  {
    var m := CopyMap(t, s, d, ex, now);
    forall k | k in CopyTree(t, s, d, ex, now) ensures GoodPath(k) {
      if k in m {
        var o := s + k[|d|..];
        GoodTarget(d, s, o);
        assert d + o[|s|..] == k;
      } else {
        assert k in MkdirAll(t, d);
      }
    }
  }

  lemma CopyTreeWellFormed(t: Tree, s: Path, d: Path, ex: seq<string>, now: int)
    requires WellFormed(t) && CanMkdirAll(t, d) && CopyFits(t, s, d, ex)
    ensures WellFormed(CopyTree(t, s, d, ex, now))
  {
    MkdirAllWellFormed(t, d);
    var r := CopyTree(t, s, d, ex, now);
    forall k, i | k in r && 0 <= i < |k| ensures k[..i] in r && r[k[..i]].Dir? {
      CopyTreeAncestor(t, s, d, ex, now, k, i);
    }
  }

  lemma CopyTreeAncestor(t: Tree, s: Path, d: Path, ex: seq<string>, now: int, k: Path, i: nat)
    requires WellFormed(t) && CanMkdirAll(t, d) && CopyFits(t, s, d, ex)
    requires k in CopyTree(t, s, d, ex, now) && i < |k|
    ensures k[..i] in CopyTree(t, s, d, ex, now) && CopyTree(t, s, d, ex, now)[k[..i]].Dir?
  {
    MkdirAllWellFormed(t, d);
    if k in CopyMap(t, s, d, ex, now) && |d| < i {
      CopyTreeAncestorBelow(t, s, d, ex, now, k, i);
    } else if k in CopyMap(t, s, d, ex, now) {
      assert k[..i] == d[..i];
    } else {
      CopyTreeAncestorKept(t, s, d, ex, now, k, i);
    }
  }

  /** An ancestor strictly below `d` of a copy is the copy of a directory. */
  lemma CopyTreeAncestorBelow(t: Tree, s: Path, d: Path, ex: seq<string>, now: int, k: Path, i: nat)
    requires WellFormed(t) && k in CopyMap(t, s, d, ex, now) && |d| < i < |k|
    ensures k[..i] in CopyTree(t, s, d, ex, now) && CopyTree(t, s, d, ex, now)[k[..i]].Dir?
  {
    var q := s + k[|d|..];
    var j := |s| + i - |d|;
    CopiedPrefix(t, s, ex, q, j);
    assert k[..i] == d + q[..j][|s|..];
    CopyTreeAt(t, s, d, ex, now, q[..j]);
  }

  /** An ancestor of a node the copy did not write is a directory. */
  lemma CopyTreeAncestorKept(t: Tree, s: Path, d: Path, ex: seq<string>, now: int, k: Path, i: nat)
    requires WellFormed(MkdirAll(t, d)) && CopyFits(t, s, d, ex)
    requires k in MkdirAll(t, d) && i < |k|
    ensures k[..i] in CopyTree(t, s, d, ex, now) && CopyTree(t, s, d, ex, now)[k[..i]].Dir?
  {
    var a := k[..i];
    if a in CopyMap(t, s, d, ex, now) {
      // a directory that stood below d before the copy; by CopyFits its
      // origin is a directory too
      assert d < a;
      assert a in t;
      assert t[s + a[|d|..]].Dir?;
    }
  }

  /** The copy changes nothing outside `d`: every node not strictly below
      `d` keeps its content, and new nodes appear only along or below `d`. */
  lemma CopyTreeOutside(t: Tree, s: Path, d: Path, ex: seq<string>, now: int)
    ensures forall q :: q in t && !(d < q) ==> q in CopyTree(t, s, d, ex, now) && CopyTree(t, s, d, ex, now)[q] == t[q]
    ensures forall k :: k in CopyTree(t, s, d, ex, now) && k !in t ==> k <= d || d < k
  {
  }

  /** Every node the exclusion does not prune arrives at its place below `d`:
      a directory as a directory, a file with its bytes and mode. */
  lemma CopyTreeComplete(t: Tree, s: Path, d: Path, ex: seq<string>, now: int)
    ensures forall q :: q in CopySet(t, s, ex) ==>
              && d + q[|s|..] in CopyTree(t, s, d, ex, now)
              && CopyTree(t, s, d, ex, now)[d + q[|s|..]] == CopyNode(t[q], s == d, now)
  {
    forall q | q in CopySet(t, s, ex)
      ensures d + q[|s|..] in CopyTree(t, s, d, ex, now)
      ensures CopyTree(t, s, d, ex, now)[d + q[|s|..]] == CopyNode(t[q], s == d, now)
    {
      CopyTreeAt(t, s, d, ex, now, q);
    }
  }

  /** Copying into a directory that is new or empty never clashes. */
  lemma FreshTargetFits(t: Tree, s: Path, d: Path, ex: seq<string>)
    requires forall q :: q in t ==> !(d < q)
    ensures CopyFits(t, s, d, ex)
  {
    forall q | q in CopySet(t, s, ex) ensures d + q[|s|..] !in t {
      assert |q| > |s|;
      assert d < d + q[|s|..];
    }
  }

  /** No copy lies below a copied directory with an excluded name: the
      exclusion prunes whole subtrees at any depth. */
  lemma CopyTreePrunes(t: Tree, s: Path, d: Path, ex: seq<string>, now: int)
    requires WellFormed(t)
    ensures forall k :: k in CopyMap(t, s, d, ex, now) ==> Copied(CopyMap(t, s, d, ex, now), d, ex, k)
  {
    var r := CopyMap(t, s, d, ex, now);
    forall k | k in r ensures Copied(r, d, ex, k) {
      var q := s + k[|d|..];
      forall j | |d| < j <= |k| ensures !(k[..j] in r && r[k[..j]].Dir? && k[j - 1] in ex) {
        var j' := |s| + j - |d|;
        Rebased(s, d, k, j);
        PrunedAt(t, s, d, ex, now, q, j', k[..j]);
      }
    }
  }

  /** Moving a location from below `d` to below `s` keeps the names under
      `d` and their positions relative to it. */
  lemma Rebased(s: Path, d: Path, k: Path, j: nat)
    requires d < k && |d| < j <= |k|
    ensures var q := s + k[|d|..]; var j' := |s| + j - |d|;
            |s| < j' <= |q| && k[..j] == d + q[|s|..j'] && q[j' - 1] == k[j - 1]
  {
    var q := s + k[|d|..];
    var j' := |s| + j - |d|;
    assert q[|s|..j'] == k[|d|..j];
  }

  /** A directory with an excluded name is never copied. */
  lemma PrunedAt(t: Tree, s: Path, d: Path, ex: seq<string>, now: int, q: Path, i: nat, k: Path)
    requires WellFormed(t) && q in CopySet(t, s, ex) && |s| < i <= |q|
    requires k == d + q[|s|..i]
    ensures !(k in CopyMap(t, s, d, ex, now) && CopyMap(t, s, d, ex, now)[k].Dir? && q[i - 1] in ex)
  {
    CopiedPrefix(t, s, ex, q, i);
    var p := q[..i];
    CopyMapAt(t, s, d, ex, now, p);
    assert p[|s|..] == q[|s|..i];
    assert p[..|p|] == p;
    assert |p| == i && p[i - 1] == q[i - 1];
  }

  // ---------------------------------------------------------------------------
  // Deleting empty directories
  // ---------------------------------------------------------------------------

  ghost predicate HasFileBelow(t: Tree, d: Path) {
    exists q :: q in t && d <= q && t[q].File?
  }

  /** The directories at or below `d` with no file anywhere below them;
      these are the directories a post-order sweep finds empty once their
      subdirectories are gone. The root of the file system is never one. */
  ghost function EmptyDirs(t: Tree, d: Path): set<Path> {
    set q | q in t && d <= q && q != [] && t[q].Dir? && !HasFileBelow(t, q)
  }

  /** `t` without the locations in `gone`. */
  function Without(t: Tree, gone: set<Path>): (r: Tree)
    ensures forall q :: q in r <==> q in t && q !in gone
    ensures forall q :: q in r ==> r[q] == t[q]
  {
    map q | q in t && q !in gone :: t[q]
  }

  /** The empty directories strictly below `d` under the children in `kids`. */
  ghost function Gone(t: Tree, d: Path, kids: set<Path>): set<Path> {
    set q | q in EmptyDirs(t, d) && d < q && q[..|d| + 1] in kids
  }

  ghost function Below(t: Tree, d: Path): set<Path> {
    set q | q in t && d <= q
  }

  /** Every directory in `s` comes after all directories below it. */
  ghost predicate PostOrder(s: seq<Path>) {
    forall i, j :: 0 <= i < |s| && 0 <= j < |s| && s[j] < s[i] ==> i < j
  }

  ghost predicate NoRepeats(s: seq<Path>) {
    forall i, j :: 0 <= i < j < |s| ==> s[i] != s[j]
  }

  lemma GoneStep(t: Tree, d: Path, kids: set<Path>, k: Path)
    requires |k| == |d| + 1 && d <= k
    ensures Gone(t, d, kids + {k}) == Gone(t, d, kids) + EmptyDirs(t, k)
  {
    forall q | q in EmptyDirs(t, k) ensures q in Gone(t, d, kids + {k}) {
      assert q[..|d| + 1] == k;
    }
  }

  /** Empty directories below a child are decided by that child's subtree. */
  lemma EmptyDirsLocal(t: Tree, r: Tree, k: Path)
    requires forall q :: k <= q ==> (q in t <==> q in r)
    requires forall q :: k <= q && q in t ==> t[q] == r[q]
    ensures EmptyDirs(t, k) == EmptyDirs(r, k)
  {
    forall q | k <= q ensures HasFileBelow(t, q) <==> HasFileBelow(r, q) {
      if HasFileBelow(t, q) {
        var f :| f in t && q <= f && t[f].File?;
        assert k <= f;
      }
      if HasFileBelow(r, q) {
        var f :| f in r && q <= f && r[f].File?;
        assert k <= f;
      }
    }
  }

  lemma WithoutTwice(t: Tree, a: set<Path>, b: set<Path>)
    ensures Without(Without(t, a), b) == Without(t, a + b)
  {
  }

  lemma BelowShrinks(t0: Tree, t: Tree, d: Path, k: Path)
    requires t.Keys <= t0.Keys && d in t && d < k
    ensures |Below(t, k)| < |Below(t0, d)|
  {
    var a, b := Below(t, k), Below(t0, d);
    assert a <= b;
    assert d in b - a;
    assert b == a + (b - a);
    assert a * (b - a) == {};
  }

  /** Once every subdirectory has been swept, `d` is left without entries
      exactly when no file lay below it. */
  lemma SweptEntries(t: Tree, d: Path, kids: set<Path>)
    requires WellFormed(t) && d in t && t[d].Dir?
    requires kids == set k | k in t && |k| == |d| + 1 && d <= k && t[k].Dir?
    ensures (forall q :: q in Without(t, Gone(t, d, kids)) ==> !(d < q)) <==> !HasFileBelow(t, d)
  {
    if HasFileBelow(t, d) {
      SweptKeepsFile(t, d, kids);
    } else {
      SweptAll(t, d, kids);
    }
  }

  lemma SweptKeepsFile(t: Tree, d: Path, kids: set<Path>)
    requires WellFormed(t) && d in t && t[d].Dir? && HasFileBelow(t, d)
    ensures exists q :: q in Without(t, Gone(t, d, kids)) && d < q
  {
    var f :| f in t && d <= f && t[f].File?;
    assert f != d;
    var c := f[..|d| + 1];
    AncestorIn(t, f, |d| + 1);
    assert c[..|d|] == d;
    assert HasFileBelow(t, c) by { assert c <= f; }
    assert c in Without(t, Gone(t, d, kids));
  }

  lemma SweptAll(t: Tree, d: Path, kids: set<Path>)
    requires WellFormed(t) && d in t && t[d].Dir? && !HasFileBelow(t, d)
    requires kids == set k | k in t && |k| == |d| + 1 && d <= k && t[k].Dir?
    ensures forall q :: q in Without(t, Gone(t, d, kids)) ==> !(d < q)
  {
    forall q | q in t && d < q ensures q in Gone(t, d, kids) {
      var c := q[..|d| + 1];
      AncestorIn(t, q, |d| + 1);
      assert c[..|d|] == d;
      assert t[c].Dir? && t[q].Dir? && !HasFileBelow(t, q) by {
        assert HasFileBelow(t, q) ==> HasFileBelow(t, d);
      }
      assert q != [];
    }
  }

  /** The empty directories at or below `d` are those below its children,
      plus `d` itself when no file lies below it. */
  lemma EmptyDirsSplit(t: Tree, d: Path, kids: set<Path>)
    requires WellFormed(t) && d in t && t[d].Dir?
    requires kids == set k | k in t && |k| == |d| + 1 && d <= k && t[k].Dir?
    ensures EmptyDirs(t, d) == Gone(t, d, kids) + (if d != [] && !HasFileBelow(t, d) then {d} else {})
  {
    forall q | q in EmptyDirs(t, d) ensures q == d || q in Gone(t, d, kids) {
      if q != d {
        var c := q[..|d| + 1];
        AncestorIn(t, q, |d| + 1);
        assert c[..|d|] == d;
        assert t[c].Dir?;
      }
    }
    if d != [] && !HasFileBelow(t, d) {
      assert d in EmptyDirs(t, d);
    } else {
      assert d !in EmptyDirs(t, d);
    }
  }

  /** Nothing below a child not yet swept has been removed. */
  lemma UntouchedChild(t: Tree, d: Path, done: set<Path>, k: Path)
    requires |k| == |d| + 1 && d <= k && k !in done
    ensures forall q :: k <= q ==> q !in Gone(t, d, done)
  {
    forall q | k <= q ensures q !in Gone(t, d, done) {
      assert q[..|d| + 1] == k;
    }
  }

  lemma PrefixAgree(x: Path, y: Path, n: nat)
    requires x <= y && n <= |x|
    ensures x[..n] == y[..n]
  {
  }

  /** Sweeps of disjoint subtrees may be listed one after the other. */
  lemma ConcatSubtrees(a: seq<Path>, b: seq<Path>, n: nat)
    requires PostOrder(a) && NoRepeats(a) && PostOrder(b) && NoRepeats(b)
    requires forall x, y :: x in a && y in b ==> |x| >= n && |y| >= n && x[..n] != y[..n]
    ensures PostOrder(a + b) && NoRepeats(a + b)
  {
    forall x, y | x in a && y in b ensures !(x <= y) && !(y <= x) {
      if x <= y { PrefixAgree(x, y, n); }
      if y <= x { PrefixAgree(y, x, n); }
    }
    var c := a + b;
    forall i, j | 0 <= i < |c| && 0 <= j < |c| && c[j] < c[i] ensures i < j {
      assert c[i] in a || c[i] in b;
      if |a| <= j {
        assert c[j] == b[j - |a|];
      }
      if |a| <= i {
        assert c[i] == b[i - |a|];
      }
    }
    forall i, j | 0 <= i < j < |c| ensures c[i] != c[j] {
      if |a| <= i {
        assert c[i] == b[i - |a|] && c[j] == b[j - |a|];
      } else if |a| <= j {
        assert c[j] == b[j - |a|];
      }
    }
  }

  /** A directory listed after everything below it keeps the order. */
  lemma AppendAncestor(a: seq<Path>, d: Path)
    requires PostOrder(a) && NoRepeats(a)
    requires forall x :: x in a ==> d < x
    ensures PostOrder(a + [d]) && NoRepeats(a + [d])
  {
    var c := a + [d];
    forall x | x in a ensures !(x < d) && x != d {
      assert |x| > |d|;
    }
    forall i, j | 0 <= i < |c| && 0 <= j < |c| && c[j] < c[i] ensures i < j {
      if j < |a| {
        assert c[j] == a[j] && a[j] in a;
      }
      if i < |a| {
        assert c[i] == a[i];
      }
    }
    forall i, j | 0 <= i < j < |c| ensures c[i] != c[j] {
      assert c[i] == a[i] && a[i] in a;
    }
  }

  // ---------------------------------------------------------------------------
  // Paths given relative to a .claude directory
  // ---------------------------------------------------------------------------

  /** What is left of `p` once a leading ".claude/" and then a leading
      ".claude\\" are trimmed, each at most once. */
  function StripClaude(p: string): (n: string)
    ensures n != p ==> HasPrefix(p, ".claude/") || HasPrefix(p, ".claude\\")
    ensures HasPrefix(p, ".claude/") || HasPrefix(p, ".claude\\") ==> |n| < |p| && n == p[|p| - |n|..]
    ensures HasPrefix(p, ".claude/") && !HasPrefix(p[8..], ".claude\\") ==> n == p[8..]
    ensures HasPrefix(p, ".claude/") && HasPrefix(p[8..], ".claude\\") ==> n == p[16..]
    ensures !HasPrefix(p, ".claude/") && HasPrefix(p, ".claude\\") ==> n == p[8..]
  {
    TrimPrefix(TrimPrefix(p, ".claude/"), ".claude\\")
  }

  /** ValidateAndNormalizePath: a path the user names as ".claude/..." is
      accepted only if, once trimmed of white space, it is not empty, has
      no "..", starts with ".claude/" (or ".claude\\") with something after
      it, and cleans to a relative path; the result is that cleaned
      remainder. */
  function ValidateAndNormalizePath(path: string): (r: Result<string>)
    ensures TrimSpace(path) == "" || Contains(TrimSpace(path), "..") ==> r.Err?
    ensures !HasPrefix(TrimSpace(path), ".claude/") && !HasPrefix(TrimSpace(path), ".claude\\") ==> r.Err?
    ensures r.Ok? ==> r.value != "" && !IsAbs(r.value) && Clean(r.value) == r.value
    ensures r.Ok? ==> StripClaude(TrimSpace(path)) != "" && r.value == Clean(StripClaude(TrimSpace(path)))
  {
    var p := TrimSpace(path);
    if p == "" then Err("path cannot be empty")
    else if Contains(p, "..") then Err("path cannot contain '..' (parent directory references)")
    else if !HasPrefix(p, ".claude") then Err("path must start with '.claude/'")
    else if p == ".claude" then Err("path cannot be just '.claude'")
    else
      var n := StripClaude(p);
      if n == "" || n == p then Err("path must specify a file or directory inside .claude")
      else
        var c := Clean(n);
        CleanIsAbs(n);
        CleanIdempotent(n);
        if IsAbs(c) then Err("path cannot be absolute")
        else Ok(c)
  }

  /** A path is accepted exactly when, once trimmed, it has no "..", loses
      a ".claude/" or ".claude\\" prefix, leaves something after it, and
      does not clean to an absolute path. */
  lemma ValidateAccepts(path: string)
    ensures var p, n := TrimSpace(path), StripClaude(TrimSpace(path));
      ValidateAndNormalizePath(path).Ok? <==> !Contains(p, "..") && n != p && n != "" && !IsAbs(Clean(n))
  {
    StripClaudeGuard(TrimSpace(path));
  }

  /** Whatever StripClaude shortens passes the ".claude" guards that come
      before it in ValidateAndNormalizePath. */
  lemma StripClaudeGuard(p: string)
    ensures StripClaude(p) != p ==> p != "" && HasPrefix(p, ".claude") && p != ".claude"
  {
    if StripClaude(p) != p {
      assert p[..7] == p[..8][..7];
    }
  }

  // ---------------------------------------------------------------------------
  // The file system
  // ---------------------------------------------------------------------------

  class FileSystem {
    var tree: Tree
    /** The user's home directory, or None when it cannot be determined. */
    const home: Option<string>

    ghost predicate Valid()
      reads this
    {
      WellFormed(tree) && GoodNames(tree)
    }

    constructor (t: Tree, home: Option<string>)
      requires WellFormed(t) && GoodNames(t)
      ensures Valid() && tree == t && this.home == home
    {
      tree := t;
      this.home := home;
    }

    /** The location a path names, after `~` expansion. */
    function Loc(path: string): (p: Path)
      ensures GoodPath(p)
    {
      Locate(path, home)
    }

    /** FileExists. */
    function FileExists(path: string): bool
      reads this
    {
      Found(tree, path, home)
    }

    /** IsDirectory. */
    function IsDirectory(path: string): bool
      reads this
    {
      Found(tree, path, home) && tree[Loc(path)].Dir?
    }

    /** CopyFile(src, dst) at time `now`; `fault` stands for an I/O error the
        model cannot predict (a full disk, a permission). Copying a path onto
        itself does nothing; a missing source, a file where a parent directory
        must go or a directory at the destination is an error that changes
        nothing; otherwise the destination, with its parents created, holds
        the source's bytes and mode. After an error while copying the data,
        only the destination and its ancestors may have changed. */
    method CopyFile(src: string, dst: string, now: int, fault: bool) returns (err: Option<string>)
      requires Valid()
      modifies this
      ensures Valid()
      ensures CopyOutcome(old(tree), tree, Loc(src), Loc(dst), now, fault, err.None?)
    {
      var s, d := Loc(src), Loc(dst);
      if s == d {
        return None;
      }
      if s !in tree {
        return Some("failed to open source file");
      }
      if !CanMkdirAll(tree, Parent(d)) {
        return Some("failed to create directory");
      }
      if d in tree && tree[d].Dir? {
        return Some("failed to create destination file");
      }
      if tree[s].Dir? || fault {
        return Some("failed to copy file");
      }
      WriteAtWellFormed(tree, d, CopiedNode(tree[s], now));
      tree := WriteAt(tree, d, CopiedNode(tree[s], now));
      err := None;
    }

    /** RemoveFile: a path FileExists does not find (a missing one, or one
        that expands to "") is success with no change; otherwise the path
        and everything below it are removed, unless an I/O error (`fault`)
        stops the removal part-way. */
    method RemoveFile(path: string, fault: bool) returns (err: Option<string>)
      requires Valid()
      modifies this
      ensures Valid()
      ensures !Found(old(tree), path, home) ==> err.None? && tree == old(tree)
      ensures Found(old(tree), path, home) && !fault ==> err.None? && tree == RemoveAll(old(tree), Loc(path))
      ensures Found(old(tree), path, home) && fault ==> err.Some? && OnlyBelow(old(tree), tree, Loc(path))
    {
      var p := Loc(path);
      if !FileExists(path) {
        return None;
      }
      if fault {
        return Some("failed to remove");
      }
      RemoveAllWellFormed(tree, p);
      tree := RemoveAll(tree, p);
      err := None;
    }

    /** MoveFile: the parents of the destination are created, then the
        source is renamed; `fault` stands for an I/O error of the rename. */
    method MoveFile(src: string, dst: string, fault: bool) returns (err: Option<string>)
      requires Valid()
      modifies this
      ensures Valid()
      ensures var s, d := Loc(src), Loc(dst);
        && (!CanMkdirAll(old(tree), Parent(d)) ==> err.Some? && tree == old(tree))
        && (CanMkdirAll(old(tree), Parent(d)) ==>
              var t1 := MkdirAll(old(tree), Parent(d));
              var o := OsRename(t1, s, d, ExpandHomeUtils(src, home) == ExpandHomeUtils(dst, home), fault);
              (o.Some? ==> err.None? && tree == o.value) && (o.None? ==> err.Some? && tree == t1))
    {
      var s, d := Loc(src), Loc(dst);
      if !CanMkdirAll(tree, Parent(d)) {
        return Some("failed to create directory");
      }
      MkdirAllWellFormed(tree, Parent(d));
      GoodPathSlice(d, 0, |Parent(d)|);
      assert d[0..|Parent(d)|] == Parent(d);
      MkdirAllGoodNames(tree, Parent(d));
      tree := MkdirAll(tree, Parent(d));
      assert Parent(d)[..|Parent(d)|] == Parent(d);
      err := Rename(s, d, ExpandHomeUtils(src, home) == ExpandHomeUtils(dst, home), fault);
    }

    /** os.Rename, once the destination's parent directory exists. */
    method Rename(s: Path, d: Path, sameName: bool, fault: bool) returns (err: Option<string>)
      requires Valid() && GoodPath(d) && Parent(d) in tree && tree[Parent(d)].Dir?
      modifies this
      ensures Valid()
      ensures var o := OsRename(old(tree), s, d, sameName, fault);
        && (o.Some? ==> err.None? && tree == o.value)
        && (o.None? ==> err.Some? && tree == old(tree))
    {
      if d in tree && tree[d].Dir? {
        if s == d && !sameName {
          return None;
        }
        return Some("file exists");
      }
      if s == d && s in tree {
        return None;
      }
      if !RenameOk(tree, s, d) || fault {
        return Some("failed to move file");
      }
      RenameOkNotRoot(tree, s, d);
      MovedWellFormed(tree, s, d);
      MovedGoodNames(tree, s, d);
      tree := Moved(tree, s, d);
      err := None;
    }

    /** CopyDirExclude(src, dst, excludeDirs) at time `now`: the source must
        be a directory; `dst` and its parents are created first, and then
        every node below `src` that is not pruned (a directory whose name is
        excluded, at any depth, with all below it) is copied to the same
        place below `dst`. A destination strictly below the source and not
        pruned is reached by the copy itself, which then copies into its own
        copy without end, until an error. A copied file landing on a
        directory, a copied directory landing on a file, or an I/O error
        (`fault`) is an error too; after any of these only nodes along or
        below `dst` may have changed. */
    method CopyDirExclude(src: string, dst: string, exclude: seq<string>, now: int, fault: bool)
      returns (err: Option<string>)
      requires Valid()
      modifies this
      ensures Valid()
      ensures var s, d := Loc(src), Loc(dst);
        && (!(s in old(tree) && old(tree)[s].Dir?) ==> err.Some? && tree == old(tree))
        && (s in old(tree) && old(tree)[s].Dir? && !CanMkdirAll(old(tree), d) ==> err.Some? && tree == old(tree))
        && (s in old(tree) && old(tree)[s].Dir? && CanMkdirAll(old(tree), d) ==>
              var t1 := MkdirAll(old(tree), d);
              if !Copied(t1, s, exclude, d) && CopyFits(t1, s, d, exclude) && !fault
              then err.None? && tree == CopyTree(t1, s, d, exclude, now)
              else err.Some? && OnlyAlongOrBelow(old(tree), tree, d))
    {
      var s, d := Loc(src), Loc(dst);
      if s !in tree {
        return Some("failed to stat source directory");
      }
      if !tree[s].Dir? {
        return Some("source is not a directory");
      }
      if !CanMkdirAll(tree, d) {
        return Some("failed to create destination directory");
      }
      MkdirAllWellFormed(tree, d);
      MkdirAllGoodNames(tree, d);
      tree := MkdirAll(tree, d);
      if Copied(tree, s, exclude, d) {
        return Some("failed to create destination directory");
      }
      if !CopyFits(tree, s, d, exclude) || fault {
        return Some("failed to copy");
      }
      CopyTreeWellFormed(tree, s, d, exclude, now);
      CopyTreeGoodNames(tree, s, d, exclude, now);
      tree := CopyTree(tree, s, d, exclude, now);
      err := None;
    }

    /** DeleteEmptyFolders(rootPath): a missing root or a root that is not a
        directory is an error that changes nothing; otherwise every
        directory at or below the root with no file anywhere below it is
        removed, the root included, and listed in post-order. */
    method DeleteEmptyFolders(rootPath: string) returns (deleted: seq<Path>, err: Option<string>)
      requires Valid()
      modifies this
      ensures Valid()
      ensures !old(IsDirectory(rootPath)) ==> err.Some? && deleted == [] && tree == old(tree)
      ensures old(IsDirectory(rootPath)) ==>
                && err.None?
                && tree == Without(old(tree), EmptyDirs(old(tree), Loc(rootPath)))
                && (forall x :: x in deleted <==> x in EmptyDirs(old(tree), Loc(rootPath)))
                && NoRepeats(deleted) && PostOrder(deleted)
    {
      var r := Loc(rootPath);
      if !FileExists(rootPath) {
        return [], Some("path does not exist");
      }
      if !IsDirectory(rootPath) {
        return [], Some("path is not a directory");
      }
      deleted := SweepEmpty(r);
      err := None;
    }

    /** deleteEmptyFoldersRecursive: sweep every subdirectory, then remove
        `d` if nothing is left in it. */
    method SweepEmpty(d: Path) returns (deleted: seq<Path>)
      requires Valid() && d in tree && tree[d].Dir?
      modifies this
      decreases |Below(tree, d)|
      ensures Valid()
      ensures tree == Without(old(tree), EmptyDirs(old(tree), d))
      ensures forall x :: x in deleted <==> x in EmptyDirs(old(tree), d)
      ensures NoRepeats(deleted) && PostOrder(deleted)
    {
      ghost var t0 := tree;
      var kids := set k | k in tree && |k| == |d| + 1 && d <= k && tree[k].Dir?;
      var todo := kids;
      deleted := [];
      while todo != {}
        invariant todo <= kids
        invariant Valid()
        invariant tree == Without(t0, Gone(t0, d, kids - todo))
        invariant forall x :: x in deleted <==> x in Gone(t0, d, kids - todo)
        invariant NoRepeats(deleted) && PostOrder(deleted)
        decreases |todo|
      {
        var k :| k in todo;
        SweepChild(t0, d, kids, todo, k);
        BelowShrinks(t0, tree, d, k);
        ghost var t1 := tree;
        var sub := SweepEmpty(k);
        SweepStep(t0, t1, d, kids, todo, k, deleted, sub);
        deleted := deleted + sub;
        todo := todo - {k};
      }
      assert kids - todo == kids;
      SweepFinal(t0, d, kids);
      if !HasEntries(tree, d) && d != [] {
        RemoveAllWellFormed(tree, d);
        AppendAncestor(deleted, d);
        tree := RemoveAll(tree, d);
        deleted := deleted + [d];
        assert EmptyDirs(t0, d) == Gone(t0, d, kids) + {d};
      } else {
        assert EmptyDirs(t0, d) == Gone(t0, d, kids);
      }
    }

    /** EnsureDir: os.MkdirAll with the path's `~` expanded. */
    method EnsureDir(path: string) returns (err: Option<string>)
      requires Valid()
      modifies this
      ensures Valid()
      ensures CanMkdirAll(old(tree), Loc(path)) ==> err.None? && tree == MkdirAll(old(tree), Loc(path))
      ensures !CanMkdirAll(old(tree), Loc(path)) ==> err.Some? && tree == old(tree)
    {
      var p := Loc(path);
      if !CanMkdirAll(tree, p) {
        return Some("failed to create directory");
      }
      MkdirAllWellFormed(tree, p);
      MkdirAllGoodNames(tree, p);
      tree := MkdirAll(tree, p);
      err := None;
    }
  }

  /** The location the package's functions act on for `path`: `~` expanded,
      then read as a location. */
  function Locate(path: string, home: Option<string>): (p: Path)
    ensures GoodPath(p)
  {
    PathOf(ExpandHomeUtils(path, home))
  }

  /** os.Stat of `path`, `~` expanded, succeeds on the tree `t`: the empty
      path names nothing, and any other path its location. */
  predicate Found(t: Tree, path: string, home: Option<string>) {
    ExpandHomeUtils(path, home) != "" && Locate(path, home) in t
  }

  /** A path that expands to nothing is read as the root. */
  lemma LocateEmpty(path: string, home: Option<string>)
    requires ExpandHomeUtils(path, home) == ""
    ensures Locate(path, home) == []
  {
    assert Split("", '/') == [""];
  }

  /** A location other than the root is found exactly when it is
      stored. */
  lemma FoundIn(t: Tree, path: string, home: Option<string>)
    requires Locate(path, home) != []
    ensures Found(t, path, home) <==> Locate(path, home) in t
  {
    if ExpandHomeUtils(path, home) == "" {
      LocateEmpty(path, home);
    }
  }

  /** What CopyFile from `s` to `d` does to the tree `t`, giving `r`, and
      whether it succeeds (`ok`). Copying a location onto itself does
      nothing and succeeds; a missing source, a file where a parent
      directory must go or a directory at the destination is an error that
      changes nothing; otherwise the destination, with its parents created,
      holds the source's bytes and mode, unless the source is a directory
      or an I/O error (`fault`) strikes, after which only the destination
      and its ancestors may have changed. */
  ghost predicate CopyOutcome(t: Tree, r: Tree, s: Path, d: Path, now: int, fault: bool, ok: bool) {
    && (s == d ==> ok && r == t)
    && (s != d && s !in t ==> !ok && r == t)
    && (s != d && s in t && (!CanMkdirAll(t, Parent(d)) || (d in t && t[d].Dir?)) ==> !ok && r == t)
    && (s != d && s in t && CanMkdirAll(t, Parent(d)) && !(d in t && t[d].Dir?) ==>
          if t[s].File? && !fault
          then ok && r == WriteAt(t, d, CopiedNode(t[s], now))
          else !ok && OnlyAlong(t, r, d))
  }

  /** `r` differs from `t` only at `d` and at missing ancestors of `d`, which
      it may have created as directories. */
  ghost predicate OnlyAlong(t: Tree, r: Tree, d: Path) {
    forall q :: q != d && (q in t || q in r) ==> (q in t && q in r && t[q] == r[q]) || (q !in t && q < d && r[q] == Dir)
  }

  /** The child `k` about to be swept still stands as it did, as does `d`. */
  lemma SweepChild(t0: Tree, d: Path, kids: set<Path>, todo: set<Path>, k: Path)
    requires WellFormed(t0) && d in t0 && t0[d].Dir? && todo <= kids && k in todo
    requires kids == set k | k in t0 && |k| == |d| + 1 && d <= k && t0[k].Dir?
    ensures var t := Without(t0, Gone(t0, d, kids - todo));
      && d in t && t[d].Dir? && k in t && t[k].Dir? && d < k
      && EmptyDirs(t, k) == EmptyDirs(t0, k)
  {
    var t := Without(t0, Gone(t0, d, kids - todo));
    UntouchedChild(t0, d, kids - todo, k);
    EmptyDirsLocal(t0, t, k);
  }

  /** One child swept: the removed set and the listing grow by that child's
      empty directories. */
  lemma SweepStep(t0: Tree, t1: Tree, d: Path, kids: set<Path>, todo: set<Path>, k: Path,
                  deleted: seq<Path>, sub: seq<Path>)
    requires todo <= kids && k in todo && |k| == |d| + 1 && d <= k
    requires t1 == Without(t0, Gone(t0, d, kids - todo))
    requires EmptyDirs(t1, k) == EmptyDirs(t0, k)
    requires forall x :: x in deleted <==> x in Gone(t0, d, kids - todo)
    requires NoRepeats(deleted) && PostOrder(deleted)
    requires forall x :: x in sub <==> x in EmptyDirs(t1, k)
    requires NoRepeats(sub) && PostOrder(sub)
    ensures Without(t1, EmptyDirs(t1, k)) == Without(t0, Gone(t0, d, kids - (todo - {k})))
    ensures forall x :: x in deleted + sub <==> x in Gone(t0, d, kids - (todo - {k}))
    ensures NoRepeats(deleted + sub) && PostOrder(deleted + sub)
  {
    assert kids - (todo - {k}) == (kids - todo) + {k};
    GoneStep(t0, d, kids - todo, k);
    WithoutTwice(t0, Gone(t0, d, kids - todo), EmptyDirs(t0, k));
    SweepListing(t0, d, kids - todo, k, deleted, sub);
  }

  lemma SweepListing(t0: Tree, d: Path, done: set<Path>, k: Path, deleted: seq<Path>, sub: seq<Path>)
    requires |k| == |d| + 1 && d <= k && k !in done
    requires forall x :: x in deleted ==> x in Gone(t0, d, done)
    requires NoRepeats(deleted) && PostOrder(deleted)
    requires forall x :: x in sub ==> k <= x
    requires NoRepeats(sub) && PostOrder(sub)
    ensures NoRepeats(deleted + sub) && PostOrder(deleted + sub)
  {
    forall x, y | x in deleted && y in sub ensures |x| >= |d| + 1 && |y| >= |d| + 1 && x[..|d| + 1] != y[..|d| + 1] {
      assert x[..|d| + 1] in done;
      PrefixAgree(k, y, |d| + 1);
      assert k[..|d| + 1] == k;
    }
    ConcatSubtrees(deleted, sub, |d| + 1);
  }

  /** After the children are swept, what is left of `d`'s subtree decides
      whether `d` goes too. */
  lemma SweepFinal(t0: Tree, d: Path, kids: set<Path>)
    requires WellFormed(t0) && d in t0 && t0[d].Dir?
    requires kids == set k | k in t0 && |k| == |d| + 1 && d <= k && t0[k].Dir?
    requires WellFormed(Without(t0, Gone(t0, d, kids)))
    ensures var t := Without(t0, Gone(t0, d, kids));
      var emptyNow := !HasEntries(t, d);
      && (emptyNow && d != [] ==> RemoveAll(t, d) == Without(t0, EmptyDirs(t0, d)))
      && (emptyNow && d != [] ==> EmptyDirs(t0, d) == Gone(t0, d, kids) + {d})
      && (!(emptyNow && d != []) ==> EmptyDirs(t0, d) == Gone(t0, d, kids))
      && (forall x :: x in Gone(t0, d, kids) ==> d < x)
  {
    var t := Without(t0, Gone(t0, d, kids));
    SweptEntries(t0, d, kids);
    EmptyDirsSplit(t0, d, kids);
    NoChildNoEntry(t, d);
    if !HasEntries(t, d) && d != [] {
      WithoutTwice(t0, Gone(t0, d, kids), {d});
      assert RemoveAll(t, d) == Without(t, {d});
    }
  }

  /** Reading directory `d` gives at least one entry. */
  predicate HasEntries(t: Tree, d: Path) {
    exists q :: q in t && |q| == |d| + 1 && d <= q
  }

  /** `d` has no entry exactly when nothing at all lies below it. */
  lemma NoChildNoEntry(t: Tree, d: Path)
    requires WellFormed(t)
    ensures !HasEntries(t, d) <==> forall q :: q in t ==> !(d < q)
  {
    if exists q :: q in t && d < q {
      var q :| q in t && d < q;
      AncestorIn(t, q, |d| + 1);
      assert q[..|d| + 1][..|d|] == d;
    }
  }

  /** `r` keeps every node of `t` that is not strictly below `d`, and its
      new nodes lie along or below `d`. */
  ghost predicate OnlyAlongOrBelow(t: Tree, r: Tree, d: Path) {
    && (forall q :: q in t && !(d < q) ==> q in r && r[q] == t[q])
    && (forall k :: k in r && k !in t ==> k <= d || d < k)
  }

  /** `r` is `t` with some nodes at or below `p` removed. */
  ghost predicate OnlyBelow(t: Tree, r: Tree, p: Path) {
    && (forall q :: q in r ==> q in t && r[q] == t[q])
    && (forall q :: q in t && !(p <= q) ==> q in r)
  }
}
