/**
 * Generic sequence helpers for the query model: a stable insertion sort by
 * a comparator (the ORDER BY clauses), the count of matching elements
 * (COUNT(*)) and the absence of duplicates.
 */
module Seqs {

  /** le is a total preorder: any two elements compare, and comparison chains. */
  ghost predicate IsTotalPreorder<T(!new)>(le: (T, T) -> bool) {
    (forall a, b :: le(a, b) || le(b, a))
    && (forall a, b, c :: le(a, b) && le(b, c) ==> le(a, c))
  }

  predicate SortedBy<T>(s: seq<T>, le: (T, T) -> bool) {
    forall i, j :: 0 <= i < j < |s| ==> le(s[i], s[j])
  }

  predicate NoDuplicates<T(==)>(s: seq<T>) {
    forall i, j :: 0 <= i < j < |s| ==> s[i] != s[j]
  }

  /** An element of a sequence without duplicates occurs in it exactly once. */
  lemma {:induction false} OnlyOnce<T>(s: seq<T>, x: T)
    requires NoDuplicates(s) && x in s
    ensures multiset(s)[x] == 1
    decreases |s|
  {
    assert s == [s[0]] + s[1..];
    if s[0] == x {
      assert x !in s[1..];
    } else {
      OnlyOnce(s[1..], x);
    }
  }

  /** Two equal elements at two positions make that element occur at least twice. */
  lemma TwiceOver<T>(s: seq<T>, i: nat, j: nat)
    requires i < j < |s| && s[i] == s[j]
    ensures multiset(s)[s[i]] >= 2
  {
    assert s == s[..i] + [s[i]] + s[i + 1..j] + [s[j]] + s[j + 1..];
  }

  /** A rearrangement of a sequence without duplicates has none either. */
  lemma SameMultisetNoDuplicates<T>(s: seq<T>, t: seq<T>)
    requires multiset(s) == multiset(t) && NoDuplicates(s)
    ensures NoDuplicates(t)
  {
    forall i, j | 0 <= i < j < |t| ensures t[i] != t[j] {
      if t[i] == t[j] {
        TwiceOver(t, i, j);
        assert t[i] in multiset(s);
        OnlyOnce(s, t[i]);
        assert false;
      }
    }
  }

  /** x placed before the first element it does not come after; elements it ties with stay behind it. */
  function Insert<T>(x: T, s: seq<T>, le: (T, T) -> bool): (r: seq<T>)
    ensures |r| == |s| + 1
    ensures multiset(r) == multiset(s) + multiset{x}
  {
    if |s| == 0 then [x]
    else if le(x, s[0]) then [x] + s
    else
      assert s == [s[0]] + s[1..];
      [s[0]] + Insert(x, s[1..], le)
  }

  /** A stable insertion sort: a permutation of s, ordered by le when le is a total preorder (see SortIsSorted). */
  function SortBy<T>(s: seq<T>, le: (T, T) -> bool): (r: seq<T>)
    ensures |r| == |s|
    ensures multiset(r) == multiset(s)
  {
    if |s| == 0 then []
    else
      assert s == [s[0]] + s[1..];
      Insert(s[0], SortBy(s[1..], le), le)
  }

  lemma {:induction false} InsertIsSorted<T(!new)>(x: T, s: seq<T>, le: (T, T) -> bool)
    requires IsTotalPreorder(le) && SortedBy(s, le)
    ensures SortedBy(Insert(x, s, le), le)
    decreases |s|
  {
    if |s| == 0 {
    } else if le(x, s[0]) {
      var r := [x] + s;
      forall i, j | 0 <= i < j < |r| ensures le(r[i], r[j]) {
        if i == 0 {
          assert r[j] == s[j - 1];
          assert le(s[0], s[j - 1]) || j - 1 == 0;
          if j - 1 != 0 {
            assert le(x, s[0]) && le(s[0], s[j - 1]);
          }
        }
      }
    } else {
      assert le(s[0], x);
      InsertIsSorted(x, s[1..], le);
      var t := Insert(x, s[1..], le);
      var r := [s[0]] + t;
      forall i, j | 0 <= i < j < |r| ensures le(r[i], r[j]) {
        if i == 0 {
          assert r[j] == t[j - 1];
          assert r[j] in multiset(t);
          assert r[j] in multiset(s[1..]) + multiset{x};
          if r[j] in multiset(s[1..]) {
            var k :| 0 <= k < |s[1..]| && s[1..][k] == r[j];
            assert s[k + 1] == r[j];
          }
        }
      }
    }
  }

  lemma {:induction false} SortIsSorted<T(!new)>(s: seq<T>, le: (T, T) -> bool)
    requires IsTotalPreorder(le)
    ensures SortedBy(SortBy(s, le), le)
    decreases |s|
  {
    if |s| > 0 {
      SortIsSorted(s[1..], le);
      InsertIsSorted(s[0], SortBy(s[1..], le), le);
    }
  }

  /** The elements of s that satisfy p, in their order in s. */
  function Filter<T>(s: seq<T>, p: T -> bool): (r: seq<T>)
    ensures |r| <= |s|
    ensures forall i :: 0 <= i < |r| ==> p(r[i])
    ensures multiset(r) <= multiset(s)
  {
    if |s| == 0 then []
    else
      assert s == [s[0]] + s[1..];
      if p(s[0]) then [s[0]] + Filter(s[1..], p) else Filter(s[1..], p)
  }

  /** Filter keeps exactly the elements that satisfy p. */
  lemma {:induction false} FilterMembers<T>(s: seq<T>, p: T -> bool, x: T)
    ensures x in Filter(s, p) <==> x in s && p(x)
    decreases |s|
  {
    if |s| > 0 {
      FilterMembers(s[1..], p, x);
      assert s == [s[0]] + s[1..];
    }
  }

  lemma {:induction false} FilterNoDuplicates<T>(s: seq<T>, p: T -> bool)
    requires NoDuplicates(s)
    ensures NoDuplicates(Filter(s, p))
    decreases |s|
  {
    if |s| > 0 {
      FilterNoDuplicates(s[1..], p);
      if p(s[0]) {
        FilterMembers(s[1..], p, s[0]);
      }
    }
  }

  /** The number of elements of s that satisfy p. */
  function Count<T>(s: seq<T>, p: T -> bool): (n: nat)
    ensures n <= |s|
    ensures n == |Filter(s, p)|
  {
    if |s| == 0 then 0 else (if p(s[0]) then 1 else 0) + Count(s[1..], p)
  }

  /** The first min(n, |s|) elements: LIMIT n. */
  function Take<T>(s: seq<T>, n: nat): (r: seq<T>)
    ensures |r| == if |s| < n then |s| else n
    ensures r == s[..|r|]
    ensures multiset(r) <= multiset(s)
  {
    if |s| <= n then s
    else
      assert s == s[..n] + s[n..];
      s[..n]
  }
}
