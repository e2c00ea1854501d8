/**
 * Query building blocks: a WHERE filter, an ORDER BY (a stable insertion
 * sort under a total preorder; a database leaves the order of ties
 * unspecified, the model keeps table order), and the `[:n]` slice.
 */
module Ordering {

  /** `leq` relates every two values in at least one direction. */
  ghost predicate Total<T(!new)>(leq: (T, T) -> bool)
  {
    forall a, b :: leq(a, b) || leq(b, a)
  }

  ghost predicate Transitive<T(!new)>(leq: (T, T) -> bool)
  {
    forall a, b, c :: leq(a, b) && leq(b, c) ==> leq(a, c)
  }

  /** A total preorder: what an ORDER BY list of columns compares by. */
  ghost predicate Preorder<T(!new)>(leq: (T, T) -> bool)
  {
    Total(leq) && Transitive(leq)
  }

  ghost predicate Sorted<T(!new)>(s: seq<T>, leq: (T, T) -> bool)
  {
    forall i, j :: 0 <= i < j < |s| ==> leq(s[i], s[j])
  }

  /** The rows of `s` for which `keep` holds, in table order, each as often as in `s`. */
  function Filter<T(!new)>(s: seq<T>, keep: T -> bool): (r: seq<T>)
    ensures |r| <= |s|
    ensures forall i :: 0 <= i < |r| ==> keep(r[i])
    ensures forall x :: multiset(r)[x] == if keep(x) then multiset(s)[x] else 0
  {
    if s == [] then []
    else
      var rest := Filter(s[1..], keep);
      assert s == [s[0]] + s[1..];
      if keep(s[0]) then [s[0]] + rest else rest
  }

  lemma FilterMembership<T(!new)>(s: seq<T>, keep: T -> bool, x: T)
    ensures x in Filter(s, keep) <==> x in s && keep(x)
  {
    assert x in Filter(s, keep) <==> multiset(Filter(s, keep))[x] > 0;
    assert x in s <==> multiset(s)[x] > 0;
  }

  /** The rows a filter keeps come from the table. */
  lemma FilterSubset<T(!new)>(s: seq<T>, keep: T -> bool)
    ensures forall x :: x in Filter(s, keep) ==> x in s
  {
    forall x | x in Filter(s, keep)
      ensures x in s
    {
      FilterMembership(s, keep, x);
    }
  }

  /** A filter keeps nothing exactly when no row of the table passes it. */
  lemma FilterEmpty<T(!new)>(s: seq<T>, keep: T -> bool)
    ensures Filter(s, keep) == [] <==> forall x :: x in s ==> !keep(x)
  {
    if Filter(s, keep) != [] {
      FilterMembership(s, keep, Filter(s, keep)[0]);
    } else {
      forall x | x in s
        ensures !keep(x)
      {
        FilterMembership(s, keep, x);
      }
    }
  }

  /** The first `n` rows, as the slice `s[:n]` gives them. */
  function Take<T(!new)>(s: seq<T>, n: nat): seq<T>
  {
    if |s| <= n then s else s[..n]
  }

  function Insert<T(!new)>(x: T, s: seq<T>, leq: (T, T) -> bool): (r: seq<T>)
    ensures multiset(r) == multiset(s) + multiset{x}
  {
    if s == [] then [x]
    else if leq(x, s[0]) then [x] + s
    else
      assert s == [s[0]] + s[1..];
      [s[0]] + Insert(x, s[1..], leq)
  }

  /** The rows of `s` in `leq` order. */
  function Sort<T(!new)>(s: seq<T>, leq: (T, T) -> bool): (r: seq<T>)
    ensures multiset(r) == multiset(s)
  {
    if s == [] then []
    else
      assert s == [s[0]] + s[1..];
      Insert(s[0], Sort(s[1..], leq), leq)
  }

  /** Every row of a sorted selection passes the filter and comes from the table. */
  lemma SortedSelectionMembers<T(!new)>(s: seq<T>, keep: T -> bool, leq: (T, T) -> bool)
    ensures forall i :: 0 <= i < |Sort(Filter(s, keep), leq)| ==>
      keep(Sort(Filter(s, keep), leq)[i]) && Sort(Filter(s, keep), leq)[i] in s
  {
    var f := Filter(s, keep);
    var t := Sort(f, leq);
    forall i | 0 <= i < |t|
      ensures keep(t[i]) && t[i] in s
    {
      assert t[i] in multiset(t);
      assert t[i] in f;
      FilterMembership(s, keep, t[i]);
    }
  }

  lemma {:induction false} InsertSorted<T(!new)>(x: T, s: seq<T>, leq: (T, T) -> bool)
    requires Preorder(leq) && Sorted(s, leq)
    ensures Sorted(Insert(x, s, leq), leq)
  {
    if s != [] && !leq(x, s[0]) {
      var tail := Insert(x, s[1..], leq);
      InsertSorted(x, s[1..], leq);
      assert leq(s[0], x);
      forall k | 0 <= k < |tail|
        ensures leq(s[0], tail[k])
      {
        assert tail[k] in multiset(tail);
        if tail[k] != x {
          assert tail[k] in multiset(s[1..]);
          var j :| 0 <= j < |s[1..]| && s[1..][j] == tail[k];
          assert s[1 + j] == tail[k];
        }
      }
      var r := [s[0]] + tail;
      forall i, j | 0 <= i < j < |r|
        ensures leq(r[i], r[j])
      {
        if i == 0 {
          assert r[j] == tail[j - 1];
        } else {
          assert r[i] == tail[i - 1] && r[j] == tail[j - 1];
        }
      }
    }
  }

  /** Under a total preorder, `Sort` sorts. */
  lemma {:induction false} SortSorted<T(!new)>(s: seq<T>, leq: (T, T) -> bool)
    requires Preorder(leq)
    ensures Sorted(Sort(s, leq), leq)
  {
    if s != [] {
      SortSorted(s[1..], leq);
      InsertSorted(s[0], Sort(s[1..], leq), leq);
    }
  }

  /**
   * The first `n` rows of a filtered, sorted table are sorted, pass the
   * filter and come from the table; each selected row appears among them at
   * most as often as in the table, and when fewer than `n` are taken, all
   * of them are.
   */
  lemma TopSelection<T(!new)>(s: seq<T>, keep: T -> bool, leq: (T, T) -> bool, n: nat)
    requires Preorder(leq)
    ensures Sorted(Take(Sort(Filter(s, keep), leq), n), leq)
    ensures |Take(Sort(Filter(s, keep), leq), n)| <= n
    ensures multiset(Take(Sort(Filter(s, keep), leq), n)) <= multiset(Filter(s, keep))
    ensures |Take(Sort(Filter(s, keep), leq), n)| == n
      || multiset(Take(Sort(Filter(s, keep), leq), n)) == multiset(Filter(s, keep))
    ensures forall i :: 0 <= i < |Take(Sort(Filter(s, keep), leq), n)| ==>
      keep(Take(Sort(Filter(s, keep), leq), n)[i]) && Take(Sort(Filter(s, keep), leq), n)[i] in s
  {
    var f := Filter(s, keep);
    var t := Sort(f, leq);
    SortSorted(f, leq);
    if |t| > n {
      assert t == t[..n] + t[n..];
    }
    var top := Take(t, n);
    forall i | 0 <= i < |top|
      ensures keep(top[i]) && top[i] in s
    {
      assert top[i] == t[i];
      assert t[i] in multiset(t);
      assert t[i] in f;
      FilterMembership(s, keep, t[i]);
    }
  }

  /**
   * `Take(Sort(s), n)` really is the first `n` by `leq`: every row of `s`
   * that did not make the cut sorts no earlier than each row that did.
   */
  lemma TopIsLeast<T(!new)>(s: seq<T>, leq: (T, T) -> bool, n: nat, x: T)
    requires Preorder(leq)
    requires x in s && x !in Take(Sort(s, leq), n)
    ensures forall y :: y in Take(Sort(s, leq), n) ==> leq(y, x)
  {
    var t := Sort(s, leq);
    SortSorted(s, leq);
    assert x in multiset(t);
    var j :| 0 <= j < |t| && t[j] == x;
    assert n <= j;
    forall y | y in Take(t, n)
      ensures leq(y, x)
    {
      var i :| 0 <= i < |Take(t, n)| && Take(t, n)[i] == y;
      assert t[i] == y;
    }
  }
}
