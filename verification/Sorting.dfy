/**
 Sorting followed by dropping equal neighbours (`sort_unstable` and `dedup` on a vector), for any
 total order: the result holds the same members, strictly ascending, and depends on nothing else.
 */
module Sorting {

  ghost predicate TotalOrder<T(!new)>(leq: (T, T) -> bool) {
    && (forall a, b :: leq(a, b) || leq(b, a))
    && (forall a, b :: leq(a, b) && leq(b, a) ==> a == b)
    && (forall a, b, c :: leq(a, b) && leq(b, c) ==> leq(a, c))
  }

  ghost predicate Sorted<T>(s: seq<T>, leq: (T, T) -> bool) {
    forall i, j :: 0 <= i < j < |s| ==> leq(s[i], s[j])
  }

  ghost predicate Ascending<T>(s: seq<T>, leq: (T, T) -> bool) {
    forall i, j :: 0 <= i < j < |s| ==> leq(s[i], s[j]) && s[i] != s[j]
  }

  function Insert<T>(x: T, s: seq<T>, leq: (T, T) -> bool): seq<T> {
    if s == [] || leq(x, s[0]) then [x] + s else [s[0]] + Insert(x, s[1..], leq)
  }

  function Sort<T>(s: seq<T>, leq: (T, T) -> bool): seq<T> {
    if s == [] then [] else Insert(s[0], Sort(s[1..], leq), leq)
  }

  /** Drops every element that equals the one before it. */
  function Dedup<T(==)>(s: seq<T>): seq<T> {
    if |s| <= 1 then s
    else if s[0] == s[1] then Dedup(s[1..])
    else [s[0]] + Dedup(s[1..])
  }

  function SortDedup<T(==)>(s: seq<T>, leq: (T, T) -> bool): seq<T> {
    Dedup(Sort(s, leq))
  }

  lemma {:induction false} InsertMembers<T>(x: T, s: seq<T>, leq: (T, T) -> bool)
    ensures multiset(Insert(x, s, leq)) == multiset{x} + multiset(s)
    decreases |s|
  {
    if s != [] && !leq(x, s[0]) {
      InsertMembers(x, s[1..], leq);
      assert s == [s[0]] + s[1..];
    }
  }

  /** Sorting permutes. */
  lemma {:induction false} SortMembers<T>(s: seq<T>, leq: (T, T) -> bool)
    ensures multiset(Sort(s, leq)) == multiset(s)
  {
    if s != [] {
      SortMembers(s[1..], leq);
      InsertMembers(s[0], Sort(s[1..], leq), leq);
      assert s == [s[0]] + s[1..];
    }
  }

  lemma SameMembers<T>(a: seq<T>, b: seq<T>)
    requires multiset(a) == multiset(b)
    ensures |a| == |b|
    ensures forall x :: x in a <==> x in b
  {
    assert |multiset(a)| == |a| && |multiset(b)| == |b|;
    forall x ensures x in a <==> x in b {
      assert x in a <==> x in multiset(a);
      assert x in b <==> x in multiset(b);
    }
  }

  lemma {:induction false} InsertSorted<T(!new)>(x: T, s: seq<T>, leq: (T, T) -> bool)
    requires TotalOrder(leq) && Sorted(s, leq)
    ensures Sorted(Insert(x, s, leq), leq)
    decreases |s|
  {
    if s != [] && !leq(x, s[0]) {
      var rest := s[1..];
      InsertSorted(x, rest, leq);
      InsertMembers(x, rest, leq);
      var r := Insert(x, rest, leq);
      forall j | 0 <= j < |r| ensures leq(s[0], r[j]) {
        assert r[j] in multiset(r);
        assert r[j] == x || r[j] in rest;
      }
    } else if s != [] {
      forall j | 0 <= j < |s| ensures leq(x, s[j]) {
        assert j == 0 || leq(s[0], s[j]);
      }
    }
  }

  lemma {:induction false} SortSorted<T(!new)>(s: seq<T>, leq: (T, T) -> bool)
    requires TotalOrder(leq)
    ensures Sorted(Sort(s, leq), leq)
  {
    if s != [] {
      SortSorted(s[1..], leq);
      InsertSorted(s[0], Sort(s[1..], leq), leq);
    }
  }

  lemma {:induction false} DedupMembers<T>(s: seq<T>)
    ensures forall x :: x in Dedup(s) <==> x in s
    ensures s != [] ==> Dedup(s) != [] && Dedup(s)[0] == s[0]
    ensures |Dedup(s)| <= |s|
    decreases |s|
  {
    if |s| > 1 {
      DedupMembers(s[1..]);
      assert s == [s[0]] + s[1..];
      assert s[1] in s[1..];
    }
  }

  lemma {:induction false} DedupAscending<T(!new)>(s: seq<T>, leq: (T, T) -> bool)
    requires TotalOrder(leq) && Sorted(s, leq)
    ensures Ascending(Dedup(s), leq)
    decreases |s|
  {
    if |s| > 1 {
      var rest := s[1..];
      DedupAscending(rest, leq);
      DedupMembers(rest);
      if s[0] != s[1] {
        var r := Dedup(rest);
        forall j | 0 <= j < |r| ensures leq(s[0], r[j]) && s[0] != r[j] {
          assert r[j] in rest;
          var k :| 0 <= k < |rest| && rest[k] == r[j];
          assert leq(s[0], s[1]) && leq(s[1], s[k + 1]);
        }
      }
    }
  }

  /** Sorting and dropping repeats: the same members, each once. */
  lemma SortDedupMembers<T>(s: seq<T>, leq: (T, T) -> bool)
    ensures forall x :: x in SortDedup(s, leq) <==> x in s
    ensures |SortDedup(s, leq)| <= |s|
    ensures SortDedup(s, leq) == [] <==> s == []
  {
    SortMembers(s, leq);
    SameMembers(Sort(s, leq), s);
    DedupMembers(Sort(s, leq));
  }

  lemma SortDedupAscending<T(!new)>(s: seq<T>, leq: (T, T) -> bool)
    requires TotalOrder(leq)
    ensures Ascending(SortDedup(s, leq), leq)
  {
    SortSorted(s, leq);
    DedupAscending(Sort(s, leq), leq);
  }

  /** An ascending list is fixed by its members. */
  lemma {:induction false} AscendingUnique<T(!new)>(a: seq<T>, b: seq<T>, leq: (T, T) -> bool)
    requires TotalOrder(leq) && Ascending(a, leq) && Ascending(b, leq)
    requires forall x :: x in a <==> x in b
    ensures a == b
    decreases |a|
  {
    assert b != [] ==> b[0] in b;
    if a != [] {
      assert a[0] in b && b != [];
      assert b[0] in a;
      assert a[0] == b[0];
      Tails(a, leq);
      Tails(b, leq);
      AscendingUnique(a[1..], b[1..], leq);
    }
  }

  lemma Tails<T(!new)>(a: seq<T>, leq: (T, T) -> bool)
    requires Ascending(a, leq) && a != []
    ensures a == [a[0]] + a[1..] && Ascending(a[1..], leq)
    ensures forall x :: x in a[1..] <==> x in a && x != a[0]
  {
    assert a == [a[0]] + a[1..];
  }

  /** Two lists come out the same exactly when they hold the same members. */
  lemma SortDedupCanonical<T(!new)>(a: seq<T>, b: seq<T>, leq: (T, T) -> bool)
    requires TotalOrder(leq)
    ensures SortDedup(a, leq) == SortDedup(b, leq) <==> forall x :: x in a <==> x in b
  {
    SortDedupMembers(a, leq);
    SortDedupMembers(b, leq);
    SortDedupAscending(a, leq);
    SortDedupAscending(b, leq);
    if forall x :: x in a <==> x in b {
      AscendingUnique(SortDedup(a, leq), SortDedup(b, leq), leq);
    } else {
      var x :| (x in a) != (x in b);
      assert (x in SortDedup(a, leq)) != (x in SortDedup(b, leq));
    }
  }
}
