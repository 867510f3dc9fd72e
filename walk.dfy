/** The order in which filepath.Walk reports what lies below a directory:
    the names in a directory are visited in sorted order (Go's `<` on
    strings) and a directory comes before everything below it, so two
    locations compare name by name, a location before those it leads to. */
module Walk {
  import opened Strings
  import opened Paths

  /** `a` is visited before `b`. */
  predicate Before(a: Path, b: Path)
    decreases |b|
  {
    b != [] && (a == [] || Less(a[0], b[0]) || (a[0] == b[0] && Before(a[1..], b[1..])))
  }

  lemma {:induction false} BeforeIrreflexive(a: Path)
    ensures !Before(a, a)
  {
    if a != [] {
      LessIrreflexive(a[0]);
      BeforeIrreflexive(a[1..]);
    }
  }

  lemma {:induction false} BeforeTransitive(a: Path, b: Path, c: Path)
    requires Before(a, b) && Before(b, c)
    ensures Before(a, c)
  {
    if a != [] {
      if Less(a[0], b[0]) {
        if Less(b[0], c[0]) { LessTransitive(a[0], b[0], c[0]); }
      } else if b[0] == c[0] {
        BeforeTransitive(a[1..], b[1..], c[1..]);
      }
    }
  }

  /** Two different locations are visited one before the other. */
  lemma {:induction false} BeforeTotal(a: Path, b: Path)
    requires a != b
    ensures Before(a, b) || Before(b, a)
  {
    if a != [] && b != [] {
      if a[0] == b[0] {
        assert a == [a[0]] + a[1..] && b == [b[0]] + b[1..];
        BeforeTotal(a[1..], b[1..]);
      } else {
        LessTotal(a[0], b[0]);
      }
    }
  }

  lemma {:induction false} BeforeAsymmetric(a: Path, b: Path)
    requires Before(a, b)
    ensures !Before(b, a)
  {
    if a != [] {
      if a[0] == b[0] {
        LessIrreflexive(a[0]);
        BeforeAsymmetric(a[1..], b[1..]);
      } else {
        LessAsymmetric(a[0], b[0]);
      }
    }
  }

  /** `m` is the first of `s` to be visited. */
  predicate IsFirst(s: set<Path>, m: Path) {
    m in s && forall x :: x in s && x != m ==> Before(m, x)
  }

  lemma {:induction false} FirstExists(s: set<Path>)
    requires s != {}
    ensures exists m :: IsFirst(s, m)
  {
    var x :| x in s;
    if s == {x} {
      assert IsFirst(s, x);
    } else {
      var rest := s - {x};
      FirstExists(rest);
      var m :| IsFirst(rest, m);
      if Before(x, m) {
        forall y | y in s && y != x ensures Before(x, y) {
          if y != m { BeforeTransitive(x, m, y); }
        }
        assert IsFirst(s, x);
      } else {
        BeforeTotal(x, m);
        assert IsFirst(s, m);
      }
    }
  }

  /** Every location of the sequence is visited before those after it. */
  predicate InWalkOrder(s: seq<Path>) {
    forall i, j :: 0 <= i < j < |s| ==> Before(s[i], s[j])
  }

  /** The locations of `s` in the order the walk visits them. */
  ghost function WalkOrder(s: set<Path>): (r: seq<Path>)
    ensures InWalkOrder(r)
    ensures forall x :: x in r <==> x in s
    decreases s
  {
    if s == {} then []
    else
      FirstExists(s);
      var m :| IsFirst(s, m);
      [m] + WalkOrder(s - {m})
  }

  /** A set has a single walk order: two sequences in walk order that hold
      the same locations are equal. */
  lemma {:induction false} WalkOrderUnique(a: seq<Path>, b: seq<Path>)
    requires InWalkOrder(a) && InWalkOrder(b)
    requires forall x :: x in a <==> x in b
    ensures a == b
  {
    if a != [] { assert a[0] in b; }
    if b != [] { assert b[0] in a; }
    if a != [] && b != [] {
      if a[0] != b[0] {
        var i :| 0 <= i < |b| && b[i] == a[0];
        var j :| 0 <= j < |a| && a[j] == b[0];
        assert Before(b[0], a[0]) && Before(a[0], b[0]);
        BeforeAsymmetric(a[0], b[0]);
      }
      forall x ensures x in a[1..] <==> x in b[1..] {
        if x in a[1..] {
          var i :| 1 <= i < |a| && a[i] == x;
          assert x != a[0] by { BeforeIrreflexive(a[0]); }
          assert x in b;
        }
        if x in b[1..] {
          var i :| 1 <= i < |b| && b[i] == x;
          assert x != b[0] by { BeforeIrreflexive(b[0]); }
          assert x in a;
        }
      }
      WalkOrderUnique(a[1..], b[1..]);
      assert a == [a[0]] + a[1..] && b == [b[0]] + b[1..];
    }
  }
}
