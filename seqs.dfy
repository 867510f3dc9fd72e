/** Sequence helpers the program writes as loops over slices: keeping the
    elements that satisfy a test, and sort.Slice with a "less" function that
    compares one string key of each element. */
module Seqs {
  import opened Strings

  /** The elements of `s` that satisfy `p`, in their order in `s`. */
  function Filter<T(!new)>(s: seq<T>, p: T -> bool): (r: seq<T>)
    ensures |r| <= |s|
    ensures forall x :: x in r <==> x in s && p(x)
  {
    if s == [] then []
    else
      var last := s[|s| - 1];
      assert s == s[..|s| - 1] + [last];
      Filter(s[..|s| - 1], p) + (if p(last) then [last] else [])
  }

  lemma {:induction false} FilterAppend<T(!new)>(a: seq<T>, b: seq<T>, p: T -> bool)
    ensures Filter(a + b, p) == Filter(a, p) + Filter(b, p)
    decreases |b|
  {
    if b != [] {
      var b' := b[..|b| - 1];
      assert a + b == (a + b') + [b[|b| - 1]];
      assert (a + b)[..|a + b| - 1] == a + b';
      FilterAppend(a, b', p);
    } else {
      assert a + b == a;
    }
  }

  /** Keys never go down from one element to any later one. */
  predicate Ascending<T>(s: seq<T>, key: T -> string) {
    forall i, j :: 0 <= i < j < |s| ==> !Less(key(s[j]), key(s[i]))
  }

  /** Keys go strictly up from one element to any later one. */
  predicate StrictlyAscending<T>(s: seq<T>, key: T -> string) {
    forall i, j :: 0 <= i < j < |s| ==> Less(key(s[i]), key(s[j]))
  }

  /** No two elements share a key. */
  predicate DistinctKeys<T>(s: seq<T>, key: T -> string) {
    forall i, j :: 0 <= i < j < |s| ==> key(s[i]) != key(s[j])
  }

  /** "Not greater than" is transitive. */
  lemma NotLessTransitive(a: string, b: string, c: string)
    requires !Less(b, a) && !Less(c, b)
    ensures !Less(c, a)
  {
    if Less(c, a) {
      if a == b {
      } else if b == c {
      } else {
        LessTotal(a, b);
        LessTotal(b, c);
        LessTransitive(a, b, c);
        LessAsymmetric(a, c);
      }
    }
  }

  /** Places `x` in front of the first element whose key is not below its own. */
  function Insert<T>(s: seq<T>, x: T, key: T -> string): (r: seq<T>)
    requires Ascending(s, key)
    ensures multiset(r) == multiset(s) + multiset{x}
    ensures Ascending(r, key)
  {
    if s == [] then [x]
    else if Less(key(s[0]), key(x)) then
      var rest := Insert(s[1..], x, key);
      InsertBehind(s, x, key, rest);
      [s[0]] + rest
    else
      InsertInFront(s, x, key);
      [x] + s
  }

  lemma InsertBehind<T>(s: seq<T>, x: T, key: T -> string, rest: seq<T>)
    requires s != [] && Ascending(s, key) && Less(key(s[0]), key(x))
    requires multiset(rest) == multiset(s[1..]) + multiset{x} && Ascending(rest, key)
    ensures multiset([s[0]] + rest) == multiset(s) + multiset{x}
    ensures Ascending([s[0]] + rest, key)
  {
    assert s == [s[0]] + s[1..];
    forall y | y in rest ensures !Less(key(y), key(s[0])) {
      assert y in multiset(rest);
      if y != x {
        var k :| 1 <= k < |s| && s[k] == y;
      } else {
        LessAsymmetric(key(s[0]), key(x));
      }
    }
  }

  lemma InsertInFront<T>(s: seq<T>, x: T, key: T -> string)
    requires s != [] && Ascending(s, key) && !Less(key(s[0]), key(x))
    ensures Ascending([x] + s, key)
  {
    forall k | 0 <= k < |s| ensures !Less(key(s[k]), key(x)) {
      if k > 0 { NotLessTransitive(key(x), key(s[0]), key(s[k])); }
    }
  }

  /** sort.Slice(s, less) where less compares `key`. */
  method SortByKey<T>(s: seq<T>, key: T -> string) returns (r: seq<T>)
    ensures multiset(r) == multiset(s)
    ensures Ascending(r, key)
    ensures DistinctKeys(s, key) ==> StrictlyAscending(r, key)
  {
    r := [];
    for i := 0 to |s|
      invariant multiset(r) == multiset(s[..i])
      invariant Ascending(r, key)
    {
      assert s[..i + 1] == s[..i] + [s[i]];
      r := Insert(r, s[i], key);
    }
    assert s[..|s|] == s;
    if DistinctKeys(s, key) {
      DistinctKeysPermutation(s, r, key);
      forall i, j | 0 <= i < j < |r| ensures Less(key(r[i]), key(r[j])) {
        LessTotal(key(r[i]), key(r[j]));
      }
    }
  }

  /** Rearranging a sequence keeps its keys distinct. */
  lemma DistinctKeysPermutation<T>(s: seq<T>, r: seq<T>, key: T -> string)
    requires DistinctKeys(s, key) && multiset(r) == multiset(s)
    ensures DistinctKeys(r, key)
  {
    forall i, j | 0 <= i < j < |r| ensures key(r[i]) != key(r[j]) {
      assert r[i] in multiset(s) && r[j] in multiset(s);
      if r[i] == r[j] {
        OccursTwice(r, i, j);
        TwiceInSeq(s, r[i]);
      } else {
        var a :| 0 <= a < |s| && s[a] == r[i];
        var b :| 0 <= b < |s| && s[b] == r[j];
        assert a != b;
      }
    }
  }

  lemma OccursTwice<T>(s: seq<T>, i: nat, j: nat)
    requires i < j < |s| && s[i] == s[j]
    ensures multiset(s)[s[i]] >= 2
  {
    assert s == s[..i] + [s[i]] + s[i + 1..j] + [s[j]] + s[j + 1..];
  }

  lemma {:induction false} TwiceInSeq<T>(s: seq<T>, x: T)
    requires multiset(s)[x] >= 2
    ensures exists a, b :: 0 <= a < b < |s| && s[a] == x && s[b] == x
  {
    assert s == [s[0]] + s[1..];
    if s[0] == x {
      assert x in multiset(s[1..]);
      var b :| 0 <= b < |s[1..]| && s[1..][b] == x;
      assert s[b + 1] == x;
    } else {
      TwiceInSeq(s[1..], x);
      var a, b :| 0 <= a < b < |s[1..]| && s[1..][a] == x && s[1..][b] == x;
      assert s[a + 1] == x && s[b + 1] == x;
    }
  }

  /** The key of every element, in order. */
  function Keys<T>(s: seq<T>, key: T -> string): (ks: seq<string>)
    ensures |ks| == |s| && forall i :: 0 <= i < |s| ==> ks[i] == key(s[i])
  {
    seq(|s|, i requires 0 <= i < |s| => key(s[i]))
  }

  /** The keys of the elements. */
  function KeySet<T(==)>(s: seq<T>, key: T -> string): set<string> {
    set x | x in s :: key(x)
  }

  lemma KeySetSnoc<T>(s: seq<T>, x: T, key: T -> string)
    ensures KeySet(s + [x], key) == KeySet(s, key) + {key(x)}
  {
    assert forall y :: y in s + [x] <==> y in s || y == x;
  }

  /** With distinct keys there are as many keys as elements. */
  lemma {:induction false} DistinctKeysCount<T>(s: seq<T>, key: T -> string)
    requires DistinctKeys(s, key)
    ensures |KeySet(s, key)| == |s|
  {
    if s != [] {
      var s' := s[..|s| - 1];
      var last := s[|s| - 1];
      assert s == s' + [last];
      DistinctKeysCount(s', key);
      var ks' := KeySet(s', key);
      assert (KeySet(s, key)) == ks' + {key(last)};
      forall x | x in s' ensures key(x) != key(last) {
        var i :| 0 <= i < |s'| && s'[i] == x;
      }
    }
  }

  /** A strictly ascending sequence has as many keys as elements. */
  lemma StrictlyAscendingCount<T>(s: seq<T>, key: T -> string)
    requires StrictlyAscending(s, key)
    ensures |KeySet(s, key)| == |s|
  {
    forall i, j | 0 <= i < j < |s| ensures key(s[i]) != key(s[j]) {
      LessIrreflexive(key(s[i]));
    }
    DistinctKeysCount(s, key);
  }

  /** Two strictly ascending sequences with the same keys, in which a key
      determines its element, are equal. */
  lemma StrictlyAscendingUnique<T>(a: seq<T>, b: seq<T>, key: T -> string)
    requires StrictlyAscending(a, key) && StrictlyAscending(b, key)
    requires KeySet(a, key) == KeySet(b, key)
    requires forall x, y :: x in a && y in b && key(x) == key(y) ==> x == y
    ensures a == b
  {
    var ka := Keys(a, key);
    var kb := Keys(b, key);
    forall k ensures k in ka <==> k in kb {
      if k in ka {
        var i :| 0 <= i < |ka| && ka[i] == k;
        assert a[i] in a && key(a[i]) == k;
        assert k in KeySet(a, key);
        var j :| 0 <= j < |b| && key(b[j]) == k;
        assert kb[j] == k;
      }
      if k in kb {
        var i :| 0 <= i < |kb| && kb[i] == k;
        assert b[i] in b && key(b[i]) == k;
        assert k in KeySet(b, key);
        var j :| 0 <= j < |a| && key(a[j]) == k;
        assert ka[j] == k;
      }
    }
    IncreasingUnique(ka, kb);
    forall i | 0 <= i < |a| ensures a[i] == b[i] {
      assert ka[i] == kb[i];
      assert a[i] in a && b[i] in b;
    }
  }

  /** Keys strictly increasing along the sequence. */
  predicate Increasing(s: seq<string>) {
    forall i, j :: 0 <= i < j < |s| ==> Less(s[i], s[j])
  }

  /** Two strictly increasing sequences that hold the same keys are equal, so
      a sort's result does not depend on the order of its input. */
  lemma {:induction false} IncreasingUnique(a: seq<string>, b: seq<string>)
    requires Increasing(a) && Increasing(b)
    requires forall x :: x in a <==> x in b
    ensures a == b
  {
    if a != [] { assert a[0] in b; }
    if b != [] { assert b[0] in a; }
    if a != [] && b != [] {
      if a[0] != b[0] {
        var i :| 0 <= i < |b| && b[i] == a[0];
        var j :| 0 <= j < |a| && a[j] == b[0];
        assert Less(b[0], a[0]) && Less(a[0], b[0]);
        LessAsymmetric(a[0], b[0]);
      }
      forall x ensures x in a[1..] <==> x in b[1..] {
        if x in a[1..] {
          var i :| 1 <= i < |a| && a[i] == x;
          assert x != a[0] by { LessIrreflexive(a[0]); }
          assert x in b;
        }
        if x in b[1..] {
          var i :| 1 <= i < |b| && b[i] == x;
          assert x != b[0] by { LessIrreflexive(b[0]); }
          assert x in a;
        }
      }
      IncreasingUnique(a[1..], b[1..]);
      assert a == [a[0]] + a[1..] && b == [b[0]] + b[1..];
    }
  }

  lemma TakeSnoc<T>(s: seq<T>, k: nat)
    requires k < |s|
    ensures s[..k + 1] == s[..k] + [s[k]]
  {
  }

  /** The number of elements of `s` that satisfy `p`. */
  function Count<T>(s: seq<T>, p: T -> bool): (n: nat)
    ensures n <= |s|
  {
    if s == [] then 0 else Count(s[..|s| - 1], p) + (if p(s[|s| - 1]) then 1 else 0)
  }

  lemma CountSnoc<T>(s: seq<T>, x: T, p: T -> bool)
    ensures Count(s + [x], p) == Count(s, p) + (if p(x) then 1 else 0)
  {
    assert (s + [x])[..|s|] == s;
  }

  /** None of the elements satisfies `p` exactly when the count is zero. */
  lemma {:induction false} CountZero<T>(s: seq<T>, p: T -> bool)
    ensures Count(s, p) == 0 <==> forall i :: 0 <= i < |s| ==> !p(s[i])
  {
    if s != [] {
      var s' := s[..|s| - 1];
      CountZero(s', p);
      assert forall i :: 0 <= i < |s'| ==> s'[i] == s[i];
    }
  }

  /** When every element passes exactly one of three tests, the three counts
      add up to the length. */
  lemma {:induction false} CountThreeWays<T>(s: seq<T>, p: T -> bool, q: T -> bool, r: T -> bool)
    requires forall i :: 0 <= i < |s| ==>
               (if p(s[i]) then 1 else 0) + (if q(s[i]) then 1 else 0) + (if r(s[i]) then 1 else 0) == 1
    ensures Count(s, p) + Count(s, q) + Count(s, r) == |s|
  {
    if s != [] {
      var s' := s[..|s| - 1];
      assert forall i :: 0 <= i < |s'| ==> s'[i] == s[i];
      CountThreeWays(s', p, q, r);
    }
  }

  /** A sequence in which each element equals the one before it is constant. */
  lemma {:induction false} Steady<T>(s: seq<T>, k: nat)
    requires k < |s| && forall i :: 0 <= i < |s| - 1 ==> s[i + 1] == s[i]
    ensures s[k] == s[0]
  {
    if k > 0 {
      Steady(s, k - 1);
    }
  }

  /** A chain of steps: the `i`-th leads from `ts[i]` to `ts[i + 1]` for
      item `ps[i]`, with result `rs[i]`. */
  ghost predicate Chain<T, P, R>(step: (T, T, P, nat, R) -> bool, ts: seq<T>, ps: seq<P>, rs: seq<R>) {
    && |ts| == |ps| + 1 && |rs| == |ps|
    && forall i :: 0 <= i < |ps| ==> step(ts[i], ts[i + 1], ps[i], i, rs[i])
  }

  /** A chain extended by one more step. */
  lemma ChainStep<T, P, R>(step: (T, T, P, nat, R) -> bool, ts: seq<T>, t: T, ps: seq<P>, k: nat, rs: seq<R>, r: R)
    requires k < |ps| && Chain(step, ts, ps[..k], rs) && step(ts[k], t, ps[k], k, r)
    ensures Chain(step, ts + [t], ps[..k + 1], rs + [r])
  {
    forall i | 0 <= i < k + 1
      ensures step((ts + [t])[i], (ts + [t])[i + 1], ps[..k + 1][i], i, (rs + [r])[i])
    {
      if i < k {
        assert ps[..k + 1][i] == ps[..k][i];
      }
    }
  }
}
