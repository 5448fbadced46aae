/** Stable sorting by a comparator, as `Array.prototype.sort` and Python's `sorted` perform it. */
module Sorting {

  ghost predicate TotalPreorder<T(!new)>(le: (T, T) -> bool) {
    && (forall x, y :: le(x, y) || le(y, x))
    && (forall x, y, z :: le(x, y) && le(y, z) ==> le(x, z))
  }

  ghost predicate Sorted<T>(s: seq<T>, le: (T, T) -> bool) {
    forall i, j :: 0 <= i < j < |s| ==> le(s[i], s[j])
  }

  ghost predicate Distinct<T>(s: seq<T>) {
    forall i, j :: 0 <= i < j < |s| ==> s[i] != s[j]
  }

  /** Places `x` before the first element it does not exceed, so equal elements keep their order. */
  function Insert<T>(x: T, s: seq<T>, le: (T, T) -> bool): (r: seq<T>)
    ensures multiset(r) == multiset{x} + multiset(s)
  {
    if s == [] || le(x, s[0]) then [x] + s
    else
      var rest := Insert(x, s[1..], le);
      assert s == [s[0]] + s[1..];
      [s[0]] + rest
  }

  function Sort<T>(s: seq<T>, le: (T, T) -> bool): (r: seq<T>)
    ensures multiset(r) == multiset(s)
    ensures |r| == |s|
  {
    if s == [] then []
    else
      assert s == [s[0]] + s[1..];
      var r := Insert(s[0], Sort(s[1..], le), le);
      assert |r| == |multiset(r)| == |multiset(s)|;
      r
  }

  lemma SameElements<T>(a: seq<T>, b: seq<T>)
    requires multiset(a) == multiset(b)
    ensures forall x :: x in a <==> x in b
    ensures |a| == |b|
  {
    assert forall x :: x in a <==> x in multiset(a);
    assert forall x :: x in b <==> x in multiset(b);
    assert |a| == |multiset(a)|;
  }

  lemma {:induction false} InsertSorts<T(!new)>(x: T, s: seq<T>, le: (T, T) -> bool)
    requires TotalPreorder(le) && Sorted(s, le)
    ensures Sorted(Insert(x, s, le), le)
  {
    var r := Insert(x, s, le);
    if s == [] || le(x, s[0]) {
      assert r == [x] + s;
      forall i, j | 0 <= i < j < |r| ensures le(r[i], r[j]) {
        if i == 0 && j > 1 { assert le(s[0], s[j - 1]); }
      }
    } else {
      var rest := Insert(x, s[1..], le);
      InsertSorts(x, s[1..], le);
      forall y | y in rest ensures le(s[0], y) {
        assert y in multiset(rest);
        assert y == x || y in s[1..];
      }
      forall i, j | 0 <= i < j < |r| ensures le(r[i], r[j]) {
        assert r[j] == rest[j - 1] && rest[j - 1] in rest;
      }
    }
  }

  lemma {:induction false} SortSorts<T(!new)>(s: seq<T>, le: (T, T) -> bool)
    requires TotalPreorder(le)
    ensures Sorted(Sort(s, le), le)
  {
    if s != [] {
      SortSorts(s[1..], le);
      InsertSorts(s[0], Sort(s[1..], le), le);
    }
  }

  lemma SortedHead<T>(a: seq<T>, x: T, le: (T, T) -> bool)
    requires Sorted(a, le) && x in a
    ensures a[0] == x || le(a[0], x)
  {
  }

  lemma TailElements<T>(a: seq<T>, b: seq<T>)
    requires multiset(a) == multiset(b) && a != [] && b != [] && a[0] == b[0]
    ensures multiset(a[1..]) == multiset(b[1..])
  {
    assert a == [a[0]] + a[1..] && b == [b[0]] + b[1..];
    assert multiset(a[1..]) == multiset(a) - multiset{a[0]};
    assert multiset(b[1..]) == multiset(b) - multiset{b[0]};
  }

  /** A sorted arrangement is unique when only equal elements tie. */
  lemma {:induction false} SortedUnique<T>(a: seq<T>, b: seq<T>, le: (T, T) -> bool)
    requires Sorted(a, le) && Sorted(b, le) && multiset(a) == multiset(b)
    requires forall x, y :: x in a && y in a && le(x, y) && le(y, x) ==> x == y
    ensures a == b
  {
    SameElements(a, b);
    if a != [] {
      SortedHead(a, b[0], le);
      SortedHead(b, a[0], le);
      TailElements(a, b);
      forall x | x in a[1..] ensures x in a { }
      SortedUnique(a[1..], b[1..], le);
      assert a == [a[0]] + a[1..] && b == [b[0]] + b[1..];
    }
  }

  /** Sorting forgets the input order when only equal elements tie. */
  lemma SortForgetsOrder<T(!new)>(a: seq<T>, b: seq<T>, le: (T, T) -> bool)
    requires TotalPreorder(le) && multiset(a) == multiset(b)
    requires forall x, y :: x in a && y in a && le(x, y) && le(y, x) ==> x == y
    ensures Sort(a, le) == Sort(b, le)
  {
    SortSorts(a, le);
    SortSorts(b, le);
    SameElements(a, Sort(a, le));
    SortedUnique(Sort(a, le), Sort(b, le), le);
  }

  lemma RepeatedCounts<T>(b: seq<T>, i: nat, j: nat)
    requires i < j < |b| && b[i] == b[j]
    ensures multiset(b)[b[i]] >= 2
  {
    assert b == b[..i] + [b[i]] + b[i + 1..j] + [b[j]] + b[j + 1..];
  }

  lemma {:induction false} TwoPlaces<T>(b: seq<T>, x: T) returns (i: nat, j: nat)
    requires multiset(b)[x] >= 2
    ensures i < j < |b| && b[i] == b[j] == x
  {
    assert b == [b[0]] + b[1..];
    if b[0] == x {
      assert x in multiset(b[1..]);
      i, j := 0, 1;
      while b[j] != x
        invariant 1 <= j < |b| && x in b[j..]
        decreases |b| - j
      {
        j := j + 1;
      }
    } else {
      i, j := TwoPlaces(b[1..], x);
      i, j := i + 1, j + 1;
    }
  }

  /** Two places of a list, found again in an arrangement of it. */
  lemma PairOfPermutation<T>(a: seq<T>, b: seq<T>, i: nat, j: nat) returns (k: nat, l: nat)
    requires multiset(a) == multiset(b) && i < j < |a|
    ensures k < |b| && l < |b| && k != l && b[k] == a[i] && b[l] == a[j]
  {
    SameElements(a, b);
    if a[i] == a[j] {
      RepeatedCounts(a, i, j);
      k, l := TwoPlaces(b, a[i]);
    } else {
      k :| k < |b| && b[k] == a[i];
      l :| l < |b| && b[l] == a[j];
    }
  }

  lemma DistinctOfPermutation<T>(a: seq<T>, b: seq<T>)
    requires multiset(a) == multiset(b) && Distinct(a)
    ensures Distinct(b)
  {
    forall i, j | 0 <= i < j < |b| && b[i] == b[j] ensures multiset(a)[b[i]] >= 2 {
      RepeatedCounts(b, i, j);
    }
    forall x ensures multiset(a)[x] <= 1 { DistinctCounts(a, x); }
  }

  lemma {:induction false} DistinctCounts<T>(a: seq<T>, x: T)
    requires Distinct(a)
    ensures multiset(a)[x] == if x in a then 1 else 0
  {
    if a != [] {
      assert a == [a[0]] + a[1..];
      assert x in a <==> x == a[0] || x in a[1..];
      DistinctCounts(a[1..], x);
    }
  }

  lemma DistinctSameSet<T>(a: seq<T>, b: seq<T>)
    requires Distinct(a) && Distinct(b) && forall x :: x in a <==> x in b
    ensures multiset(a) == multiset(b)
  {
    forall x ensures multiset(a)[x] == multiset(b)[x] {
      DistinctCounts(a, x);
      DistinctCounts(b, x);
    }
  }

  /** Lexicographic order on sequences of codes, the order of strings in both languages. */
  predicate LexLe(a: seq<nat>, b: seq<nat>) {
    a == [] || (b != [] && (a[0] < b[0] || (a[0] == b[0] && LexLe(a[1..], b[1..]))))
  }

  /** The first difference decides, or the length where there is none. */
  lemma {:induction false} LexDecides(a: seq<nat>, b: seq<nat>, k: nat)
    requires k <= |a| && k <= |b| && a[..k] == b[..k]
    ensures k == |a| ==> LexLe(a, b)
    ensures k < |a| && k == |b| ==> !LexLe(a, b)
    ensures k < |a| && k < |b| && a[k] != b[k] ==> (LexLe(a, b) <==> a[k] < b[k])
  {
    if k > 0 {
      assert a[0] == a[..k][0] == b[..k][0] == b[0];
      assert a[1..][..k - 1] == a[..k][1..] == b[..k][1..] == b[1..][..k - 1];
      LexDecides(a[1..], b[1..], k - 1);
    }
  }

  lemma {:induction false} LexTotal(a: seq<nat>, b: seq<nat>)
    ensures LexLe(a, b) || LexLe(b, a)
  {
    if a != [] && b != [] && a[0] == b[0] { LexTotal(a[1..], b[1..]); }
  }

  lemma {:induction false} LexTransitive(a: seq<nat>, b: seq<nat>, c: seq<nat>)
    requires LexLe(a, b) && LexLe(b, c)
    ensures LexLe(a, c)
  {
    if a != [] && a[0] == b[0] == c[0] { LexTransitive(a[1..], b[1..], c[1..]); }
  }

  lemma {:induction false} LexAntisymmetric(a: seq<nat>, b: seq<nat>)
    requires LexLe(a, b) && LexLe(b, a)
    ensures a == b
  {
    if a != [] {
      LexAntisymmetric(a[1..], b[1..]);
      assert a == [a[0]] + a[1..] && b == [b[0]] + b[1..];
    }
  }

  lemma LexIsTotalOrder()
    ensures TotalPreorder(LexLe)
    ensures forall a, b :: LexLe(a, b) && LexLe(b, a) ==> a == b
  {
    forall a, b ensures LexLe(a, b) || LexLe(b, a) { LexTotal(a, b); }
    forall a, b, c | LexLe(a, b) && LexLe(b, c) ensures LexLe(a, c) { LexTransitive(a, b, c); }
    forall a, b | LexLe(a, b) && LexLe(b, a) ensures a == b { LexAntisymmetric(a, b); }
  }
}
