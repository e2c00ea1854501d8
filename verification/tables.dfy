/**
 * Rows of a table as a sequence of records, with the two things the
 * database does for every model: keep a column unique, and write a row
 * by primary key (UPDATE when a row with that key exists, INSERT otherwise).
 */
module Tables {

  import Ordering
  import Wrappers

  /** No two rows agree on `key`: a UNIQUE column. */
  ghost predicate UniqueKeys<T(!new), K>(rows: seq<T>, key: T -> K)
  {
    forall i, j :: 0 <= i < |rows| && 0 <= j < |rows| && i != j ==> key(rows[i]) != key(rows[j])
  }

  /** Primary keys are unique, positive and below the next key to hand out. */
  ghost predicate Keyed<T(!new)>(rows: seq<T>, id: T -> nat, next: nat)
  {
    0 < next && UniqueKeys(rows, id) && forall i :: 0 <= i < |rows| ==> 0 < id(rows[i]) < next
  }

  /**
   * Writing a row whose `key` is `k` and whose primary key is `own` keeps
   * the column unique: no other row holds `k`.
   */
  predicate KeyFree<T, K(==)>(rows: seq<T>, key: T -> K, k: K, id: T -> nat, own: nat)
  {
    forall i :: 0 <= i < |rows| && id(rows[i]) != own ==> key(rows[i]) != k
  }

  /**
   * A new row (primary key 0) that clashes with no row keeps clashing with
   * none once it is given the next primary key.
   */
  lemma KeyFreeForNewRow<T(!new), K>(rows: seq<T>, key: T -> K, k: K, id: T -> nat, next: nat)
    requires Keyed(rows, id, next) && KeyFree(rows, key, k, id, 0)
    ensures KeyFree(rows, key, k, id, next)
  {
  }

  /** The table after saving `r`: its row replaced in place, or `r` appended. */
  function Upsert<T>(rows: seq<T>, r: T, id: T -> nat): seq<T>
  {
    if rows == [] then [r]
    else if id(rows[0]) == id(r) then [r] + rows[1..]
    else [rows[0]] + Upsert(rows[1..], r, id)
  }

  /**
   * Saving `r` leaves exactly the other rows and `r`: every row with another
   * primary key is kept, `r` is present, and nothing else is.
   */
  lemma {:induction false} UpsertContents<T(!new)>(rows: seq<T>, r: T, id: T -> nat)
    requires UniqueKeys(rows, id)
    ensures r in Upsert(rows, r, id)
    ensures forall x :: x in rows && id(x) != id(r) ==> x in Upsert(rows, r, id)
    ensures forall x :: x in Upsert(rows, r, id) ==> x == r || (x in rows && id(x) != id(r))
  {
    if rows != [] {
      if id(rows[0]) == id(r) {
        forall x | x in rows[1..]
          ensures id(x) != id(r)
        {
          var j :| 0 <= j < |rows[1..]| && rows[1..][j] == x;
          assert rows[j + 1] == x;
        }
        assert rows == [rows[0]] + rows[1..];
      } else {
        assert UniqueKeys(rows[1..], id) by {
          forall i, j | 0 <= i < |rows[1..]| && 0 <= j < |rows[1..]| && i != j
            ensures id(rows[1..][i]) != id(rows[1..][j])
          {
            assert rows[1..][i] == rows[i + 1] && rows[1..][j] == rows[j + 1];
          }
        }
        UpsertContents(rows[1..], r, id);
        assert rows == [rows[0]] + rows[1..];
      }
    }
  }

  /**
   * Position `i` of the saved table is where `r` was written: the row that
   * had its primary key, or the end when no row had it.
   */
  ghost predicate UpsertSlot<T(!new)>(rows: seq<T>, r: T, id: T -> nat, i: nat)
  {
    (i == |rows| && forall k :: 0 <= k < |rows| ==> id(rows[k]) != id(r))
    || (i < |rows| && id(rows[i]) == id(r))
  }

  /** Every row of the saved table is the old row at that position, or `r` in its slot. */
  lemma {:induction false} UpsertAt<T(!new)>(rows: seq<T>, r: T, id: T -> nat, i: nat)
    requires i < |Upsert(rows, r, id)|
    ensures var u := Upsert(rows, r, id);
      (i < |rows| && u[i] == rows[i]) || (u[i] == r && UpsertSlot(rows, r, id, i))
  {
    if rows != [] && id(rows[0]) != id(r) && i > 0 {
      var u := Upsert(rows, r, id);
      UpsertAt(rows[1..], r, id, i - 1);
      assert u[i] == Upsert(rows[1..], r, id)[i - 1];
      if !(i < |rows| && u[i] == rows[i]) {
        assert UpsertSlot(rows[1..], r, id, i - 1);
        if i == |rows| {
          forall k | 0 <= k < |rows|
            ensures id(rows[k]) != id(r)
          {
            if k > 0 {
              assert rows[k] == rows[1..][k - 1];
            }
          }
        }
      }
    }
  }

  /**
   * Saving a row whose `key` is free keeps `key` unique; with `key := id`
   * this says primary keys stay unique too.
   */
  lemma UpsertKeepsUnique<T(!new), K>(rows: seq<T>, r: T, id: T -> nat, key: T -> K)
    requires UniqueKeys(rows, id) && UniqueKeys(rows, key)
    requires KeyFree(rows, key, key(r), id, id(r))
    ensures UniqueKeys(Upsert(rows, r, id), key)
  {
    var u := Upsert(rows, r, id);
    forall i, j | 0 <= i < |u| && 0 <= j < |u| && i != j
      ensures key(u[i]) != key(u[j])
    {
      UpsertAt(rows, r, id, i);
      UpsertAt(rows, r, id, j);
    }
  }

  /**
   * Saving a row with a positive primary key keeps the table keyed, once the
   * next key to hand out is moved past the saved one.
   */
  lemma UpsertKeyed<T(!new)>(rows: seq<T>, r: T, id: T -> nat, next: nat)
    requires Keyed(rows, id, next) && 0 < id(r)
    ensures Keyed(Upsert(rows, r, id), id, if id(r) < next then next else id(r) + 1)
  {
    UpsertKeepsUnique(rows, r, id, id);
    var u := Upsert(rows, r, id);
    forall i | 0 <= i < |u|
      ensures 0 < id(u[i]) < (if id(r) < next then next else id(r) + 1)
    {
      UpsertAt(rows, r, id, i);
    }
  }

  /** Appending a row with the next primary key keeps the table keyed. */
  lemma AppendKeyed<T(!new)>(rows: seq<T>, r: T, id: T -> nat, next: nat)
    requires Keyed(rows, id, next) && id(r) == next
    ensures Keyed(rows + [r], id, next + 1)
  {
    var u := rows + [r];
    forall i | 0 <= i < |u|
      ensures 0 < id(u[i]) < next + 1
    {
      if i < |rows| {
        assert u[i] == rows[i];
      }
    }
  }

  /** The row with the smallest primary key, as `first()` on an unordered table returns it. */
  function First<T>(rows: seq<T>, id: T -> nat): (r: Wrappers.Option<T>)
    ensures r.None? <==> rows == []
    ensures r.Some? ==> r.value in rows && forall i :: 0 <= i < |rows| ==> id(r.value) <= id(rows[i])
  {
    if rows == [] then Wrappers.None
    else
      match First(rows[1..], id)
      case None => Wrappers.Some(rows[0])
      case Some(x) =>
        assert forall i :: 1 <= i < |rows| ==> rows[i] == rows[1..][i - 1];
        if id(rows[0]) <= id(x) then Wrappers.Some(rows[0]) else Wrappers.Some(x)
  }

  /** Two tables of equal length whose rows carry the same key at each position. */
  ghost predicate SameKeys<T, K>(a: seq<T>, b: seq<T>, key: T -> K)
  {
    |a| == |b| && forall i :: 0 <= i < |a| ==> key(a[i]) == key(b[i])
  }

  /** Rewriting rows in place without touching their keys keeps the keys unique. */
  lemma SameKeysKeepUnique<T(!new), K>(a: seq<T>, b: seq<T>, key: T -> K)
    requires UniqueKeys(a, key) && SameKeys(a, b, key)
    ensures UniqueKeys(b, key)
  {
    forall i, j | 0 <= i < |b| && 0 <= j < |b| && i != j
      ensures key(b[i]) != key(b[j])
    {
      assert key(a[i]) != key(a[j]);
    }
  }

  /** Rewriting rows in place without touching their primary keys keeps the table keyed. */
  lemma SameKeysKeepKeyed<T(!new)>(a: seq<T>, b: seq<T>, id: T -> nat, next: nat)
    requires Keyed(a, id, next) && SameKeys(a, b, id)
    ensures Keyed(b, id, next)
  {
    SameKeysKeepUnique(a, b, id);
    forall i | 0 <= i < |b|
      ensures 0 < id(b[i]) < next
    {
      assert id(a[i]) == id(b[i]);
    }
  }

  /**
   * When only rows with key `k` pass the filter and `key` is unique, at most
   * one row passes it.
   */
  lemma {:induction false} UniqueKeyMatchesAtMostOne<T(!new), K>(rows: seq<T>, keep: T -> bool, key: T -> K, k: K)
    requires UniqueKeys(rows, key)
    requires forall x :: keep(x) ==> key(x) == k
    ensures |Ordering.Filter(rows, keep)| <= 1
  {
    if rows != [] {
      var tail := rows[1..];
      assert UniqueKeys(tail, key) by {
        forall a, b | 0 <= a < |tail| && 0 <= b < |tail| && a != b
          ensures key(tail[a]) != key(tail[b])
        {
          assert tail[a] == rows[a + 1] && tail[b] == rows[b + 1];
        }
      }
      UniqueKeyMatchesAtMostOne(tail, keep, key, k);
      if keep(rows[0]) {
        var f := Ordering.Filter(tail, keep);
        if f != [] {
          Ordering.FilterMembership(tail, keep, f[0]);
          assert false;
        }
      }
    }
  }

  /** Deleting rows keeps a column unique. */
  lemma {:induction false} FilterKeepsUnique<T(!new), K>(rows: seq<T>, keep: T -> bool, key: T -> K)
    requires UniqueKeys(rows, key)
    ensures UniqueKeys(Ordering.Filter(rows, keep), key)
  {
    if rows != [] {
      var tail := rows[1..];
      assert UniqueKeys(tail, key) by {
        forall a, b | 0 <= a < |tail| && 0 <= b < |tail| && a != b
          ensures key(tail[a]) != key(tail[b])
        {
          assert tail[a] == rows[a + 1] && tail[b] == rows[b + 1];
        }
      }
      FilterKeepsUnique(tail, keep, key);
      var f := Ordering.Filter(tail, keep);
      if keep(rows[0]) {
        forall k | 0 <= k < |f|
          ensures key(f[k]) != key(rows[0])
        {
          Ordering.FilterMembership(tail, keep, f[k]);
          var j :| 0 <= j < |tail| && tail[j] == f[k];
          assert rows[j + 1] == f[k];
        }
        var g := [rows[0]] + f;
        forall a, b | 0 <= a < |g| && 0 <= b < |g| && a != b
          ensures key(g[a]) != key(g[b])
        {
          if a > 0 && b > 0 {
            assert g[a] == f[a - 1] && g[b] == f[b - 1];
          } else if a == 0 {
            assert g[b] == f[b - 1];
          } else {
            assert g[a] == f[a - 1];
          }
        }
      }
    }
  }
}
