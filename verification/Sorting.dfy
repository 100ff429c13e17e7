/** Python's `sorted(rows, key=...)`: a stable sort on an integer key. */
module Sorting {

  ghost predicate SortedBy<T>(key: T -> int, s: seq<T>) {
    forall i, j :: 0 <= i < j < |s| ==> key(s[i]) <= key(s[j])
  }

  /** Insertion after every row of the same or a smaller key, which keeps the sort stable. */
  function InsertBy<T>(key: T -> int, sorted: seq<T>, x: T): (r: seq<T>)
    requires SortedBy(key, sorted)
    ensures |r| == |sorted| + 1
    ensures forall s :: s in r ==> s in sorted || s == x
    ensures SortedBy(key, r)
  {
    var last := |sorted| - 1;
    if sorted == [] || key(sorted[last]) <= key(x) then sorted + [x]
    else
      var front := InsertBy(key, sorted[..last], x);
      assert forall i :: 0 <= i < |front| ==> front[i] in front;
      front + [sorted[last]]
  }

  function SortBy<T>(key: T -> int, s: seq<T>): (r: seq<T>)
    ensures |r| == |s|
    ensures SortedBy(key, r)
  {
    if s == [] then []
    else InsertBy(key, SortBy(key, s[..|s| - 1]), s[|s| - 1])
  }

  lemma InsertIs<T>(key: T -> int, sorted: seq<T>, x: T)
    requires SortedBy(key, sorted)
    ensures var last := |sorted| - 1;
            InsertBy(key, sorted, x)
            == if sorted == [] || key(sorted[last]) <= key(x) then sorted + [x]
               else InsertBy(key, sorted[..last], x) + [sorted[last]]
  {
  }

  lemma {:induction false} InsertKeepsRows<T>(key: T -> int, sorted: seq<T>, x: T)
    requires SortedBy(key, sorted)
    ensures multiset(InsertBy(key, sorted, x)) == multiset(sorted) + multiset{x}
  {
    var last := |sorted| - 1;
    if sorted != [] && key(x) < key(sorted[last]) {
      InsertKeepsRows(key, sorted[..last], x);
      assert sorted == sorted[..last] + [sorted[last]];
    }
  }

  lemma {:induction false} SortKeepsRows<T>(key: T -> int, s: seq<T>)
    ensures multiset(SortBy(key, s)) == multiset(s)
  {
    if s != [] {
      var last := |s| - 1;
      SortKeepsRows(key, s[..last]);
      InsertKeepsRows(key, SortBy(key, s[..last]), s[last]);
      assert s == s[..last] + [s[last]];
    }
  }

  /** Rows already in key order stay where they are. */
  lemma {:induction false} SortOfSorted<T>(key: T -> int, s: seq<T>)
    requires SortedBy(key, s)
    ensures SortBy(key, s) == s
  {
    if s != [] {
      var last := |s| - 1;
      SortOfSorted(key, s[..last]);
      InsertIs(key, s[..last], s[last]);
      hide InsertBy;
      assert s == s[..last] + [s[last]];
    }
  }

  /** The rows of one key, in their order. */
  function RowsAt<T>(key: T -> int, s: seq<T>, k: int): seq<T> {
    if s == [] then []
    else
      var last := |s| - 1;
      RowsAt(key, s[..last], k) + if key(s[last]) == k then [s[last]] else []
  }

  lemma RowsAtAppend<T>(key: T -> int, s: seq<T>, x: T, k: int)
    ensures RowsAt(key, s + [x], k) == if key(x) == k then RowsAt(key, s, k) + [x] else RowsAt(key, s, k)
  {
    assert (s + [x])[..|s|] == s;
  }

  lemma RowsAtSwap<T>(key: T -> int, s: seq<T>, x: T, y: T, k: int)
    requires key(x) != key(y)
    ensures RowsAt(key, s + [x] + [y], k) == RowsAt(key, s + [y] + [x], k)
  {
    hide RowsAt;
    RowsAtAppend(key, s + [x], y, k);
    RowsAtAppend(key, s, x, k);
    RowsAtAppend(key, s + [y], x, k);
    RowsAtAppend(key, s, y, k);
  }

  lemma {:induction false} InsertIsLast<T>(key: T -> int, sorted: seq<T>, x: T, k: int)
    requires SortedBy(key, sorted)
    ensures RowsAt(key, InsertBy(key, sorted, x), k) == RowsAt(key, sorted + [x], k)
  {
    hide InsertBy, RowsAt;
    InsertIs(key, sorted, x);
    var last := |sorted| - 1;
    if sorted != [] && key(x) < key(sorted[last]) {
      var front := sorted[..last];
      InsertIsLast(key, front, x, k);
      RowsAtAppend(key, InsertBy(key, front, x), sorted[last], k);
      RowsAtAppend(key, front + [x], sorted[last], k);
      RowsAtSwap(key, front, x, sorted[last], k);
      assert sorted == front + [sorted[last]];
    }
  }

  /** The sort is stable: the rows of one key come out in the order they went in. */
  lemma {:induction false} SortIsStable<T>(key: T -> int, s: seq<T>, k: int)
    ensures RowsAt(key, SortBy(key, s), k) == RowsAt(key, s, k)
  {
    if s != [] {
      var last := |s| - 1;
      SortIsStable(key, s[..last], k);
      InsertIsLast(key, SortBy(key, s[..last]), s[last], k);
      RowsAtAppend(key, SortBy(key, s[..last]), s[last], k);
      hide SortBy, InsertBy;
    }
  }
}
