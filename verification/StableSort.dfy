/** What a stable sort does to the order of its input, and what sorting twice amounts to. */
module StableSort {
  import opened Sorting

  lemma {:induction false} InsertSame<T>(x: T, s: seq<T>, le1: (T, T) -> bool, le2: (T, T) -> bool)
    requires forall y :: y in s ==> le1(x, y) == le2(x, y)
    ensures Insert(x, s, le1) == Insert(x, s, le2)
  {
    if s != [] && !le1(x, s[0]) {
      assert s[0] in s;
      InsertSame(x, s[1..], le1, le2);
    } else if s != [] {
      assert s[0] in s;
    }
  }

  /** Two comparators that agree on every pair, taken in input order, sort alike. */
  lemma {:induction false} SortSame<T>(s: seq<T>, le1: (T, T) -> bool, le2: (T, T) -> bool)
    requires forall i, j :: 0 <= i < j < |s| ==> le1(s[i], s[j]) == le2(s[i], s[j])
    ensures Sort(s, le1) == Sort(s, le2)
  {
    if s != [] {
      var t := s[1..];
      forall i, j | 0 <= i < j < |t| ensures le1(t[i], t[j]) == le2(t[i], t[j]) {
        assert t[i] == s[i + 1] && t[j] == s[j + 1];
      }
      SortSame(t, le1, le2);
      forall y | y in Sort(t, le1) ensures le1(s[0], y) == le2(s[0], y) {
        SortedMember(t, le1, y);
        var j :| 0 <= j < |t| && t[j] == y;
        assert s[j + 1] == y;
      }
      InsertSame(s[0], Sort(t, le1), le1, le2);
    }
  }

  lemma SortedMember<T>(s: seq<T>, le: (T, T) -> bool, y: T)
    requires y in Sort(s, le)
    ensures y in s
  {
    SameElements(s, Sort(s, le));
  }

  function Remove<T(==)>(x: T, s: seq<T>): seq<T> {
    if s == [] then [] else if s[0] == x then s[1..] else [s[0]] + Remove(x, s[1..])
  }

  lemma {:induction false} RemoveInserted<T>(x: T, s: seq<T>, le: (T, T) -> bool)
    requires x !in s
    ensures Remove(x, Insert(x, s, le)) == s
  {
    if s != [] && !le(x, s[0]) {
      RemoveInserted(x, s[1..], le);
    }
  }

  lemma {:induction false} InsertTellsOrder<T(!new)>(x: T, s: seq<T>, le1: (T, T) -> bool, le2: (T, T) -> bool)
    requires TotalPreorder(le1) && TotalPreorder(le2) && Sorted(s, le1) && Sorted(s, le2)
    requires x !in s && Insert(x, s, le1) == Insert(x, s, le2)
    ensures forall y :: y in s ==> le1(x, y) == le2(x, y)
  {
    if s != [] {
      assert Insert(x, s, le1)[0] == if le1(x, s[0]) then x else s[0];
      assert Insert(x, s, le2)[0] == if le2(x, s[0]) then x else s[0];
      assert s[0] in s;
      if le1(x, s[0]) {
        forall y | y in s ensures le1(x, y) && le2(x, y) {
          SortedHead(s, y, le1);
          SortedHead(s, y, le2);
        }
      } else {
        assert Insert(x, s, le1)[1..] == Insert(x, s[1..], le1);
        assert Insert(x, s, le2)[1..] == Insert(x, s[1..], le2);
        InsertTellsOrder(x, s[1..], le1, le2);
      }
    }
  }

  /** A sorted arrangement of distinct elements tells how the comparator orders every pair. */
  lemma {:induction false} SortTellsOrder<T(!new)>(s: seq<T>, le1: (T, T) -> bool, le2: (T, T) -> bool)
    requires TotalPreorder(le1) && TotalPreorder(le2) && Distinct(s) && Sort(s, le1) == Sort(s, le2)
    ensures forall i, j :: 0 <= i < j < |s| ==> le1(s[i], s[j]) == le2(s[i], s[j])
  {
    if s != [] {
      var a, b := Sort(s[1..], le1), Sort(s[1..], le2);
      SameElements(s[1..], a);
      SameElements(s[1..], b);
      RemoveInserted(s[0], a, le1);
      RemoveInserted(s[0], b, le2);
      SortTellsOrder(s[1..], le1, le2);
      SortSorts(s[1..], le1);
      SortSorts(s[1..], le2);
      InsertTellsOrder(s[0], a, le1, le2);
      forall i, j | 0 <= i < j < |s| ensures le1(s[i], s[j]) == le2(s[i], s[j]) {
        assert s[1..][j - 1] == s[j];
        if i > 0 { assert s[1..][i - 1] == s[i]; } else { assert s[j] in s[1..]; }
      }
    }
  }

  /** The order `rank` decides, and `le` where `rank` ties. */
  function Refine<T>(rank: (T, T) -> bool, le: (T, T) -> bool): (T, T) -> bool {
    (a, b) => rank(a, b) && (rank(b, a) ==> le(a, b))
  }

  lemma RefineIsTotal<T(!new)>(rank: (T, T) -> bool, le: (T, T) -> bool)
    requires TotalPreorder(rank) && TotalPreorder(le)
    ensures TotalPreorder(Refine(rank, le))
  {
    var both := Refine(rank, le);
    forall x, y ensures both(x, y) || both(y, x) {
      assert rank(x, y) || rank(y, x);
      assert le(x, y) || le(y, x);
    }
    forall x, y, z | both(x, y) && both(y, z) ensures both(x, z) {
      assert rank(x, z);
      if rank(z, x) {
        assert rank(y, x) by { assert rank(y, z) && rank(z, x); }
        assert rank(z, y) by { assert rank(z, x) && rank(x, y); }
      }
    }
  }

  lemma {:induction false} InsertsCommute<T(!new)>(a: T, b: T, s: seq<T>, le: (T, T) -> bool)
    requires TotalPreorder(le) && !le(b, a)
    ensures Insert(a, Insert(b, s, le), le) == Insert(b, Insert(a, s, le), le)
  {
    assert le(a, b);
    if s == [] {
      assert ([a] + s)[1..] == s && ([b] + s)[1..] == s;
    } else if le(a, s[0]) {
      assert ([a] + s)[1..] == s && ([b] + s)[1..] == s;
    } else {
      assert !le(b, s[0]);
      InsertsCommute(a, b, s[1..], le);
      assert ([s[0]] + Insert(b, s[1..], le))[1..] == Insert(b, s[1..], le);
      assert ([s[0]] + Insert(a, s[1..], le))[1..] == Insert(a, s[1..], le);
    }
  }

  lemma InsertByRank<T(!new)>(x: T, s: seq<T>, rank: (T, T) -> bool, le: (T, T) -> bool)
    requires forall y :: y in s ==> le(x, y)
    ensures Insert(x, s, rank) == Insert(x, s, Refine(rank, le))
  {
    InsertSame(x, s, rank, Refine(rank, le));
  }

  lemma InsertPastHead<T(!new)>(x: T, head: T, u: seq<T>, rank: (T, T) -> bool, le: (T, T) -> bool)
    requires TotalPreorder(rank) && TotalPreorder(le) && !le(x, head) && forall y :: y in u ==> le(head, y)
    ensures Insert(head, Insert(x, u, Refine(rank, le)), rank) == Insert(x, Insert(head, u, rank), Refine(rank, le))
  {
    var both := Refine(rank, le);
    RefineIsTotal(rank, le);
    assert le(head, x);
    forall y | y in Insert(x, u, both) ensures le(head, y) {
      assert y in multiset(Insert(x, u, both));
    }
    InsertByRank(head, Insert(x, u, both), rank, le);
    InsertByRank(head, u, rank, le);
    if both(x, head) { InsertsCommute(x, head, u, both); } else { InsertsCommute(head, x, u, both); }
  }

  lemma {:induction false} SortAfterInsert<T(!new)>(x: T, s: seq<T>, rank: (T, T) -> bool, le: (T, T) -> bool)
    requires TotalPreorder(rank) && TotalPreorder(le) && Sorted(s, le)
    ensures Sort(Insert(x, s, le), rank) == Insert(x, Sort(s, rank), Refine(rank, le))
  {
    if s == [] || le(x, s[0]) {
      assert ([x] + s)[1..] == s;
      SameElements(s, Sort(s, rank));
      forall y | y in Sort(s, rank) ensures le(x, y) {
        SortedHead(s, y, le);
      }
      InsertByRank(x, Sort(s, rank), rank, le);
    } else {
      var u := Sort(s[1..], rank);
      var rest := Insert(x, s[1..], le);
      assert ([s[0]] + rest)[1..] == rest;
      SortAfterInsert(x, s[1..], rank, le);
      SameElements(s[1..], u);
      forall y | y in u ensures le(s[0], y) {
        assert y in s[1..];
      }
      InsertPastHead(x, s[0], u, rank, le);
    }
  }

  /** Sorting by `le` and then, stably, by `rank` is one stable sort by the refined order. */
  lemma {:induction false} SortTwice<T(!new)>(s: seq<T>, rank: (T, T) -> bool, le: (T, T) -> bool)
    requires TotalPreorder(rank) && TotalPreorder(le)
    ensures Sort(Sort(s, le), rank) == Sort(s, Refine(rank, le))
  {
    if s != [] {
      SortTwice(s[1..], rank, le);
      SortSorts(s[1..], le);
      SortAfterInsert(s[0], Sort(s[1..], le), rank, le);
    }
  }
}
