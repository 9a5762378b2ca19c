/** Ordering of query results and of the notes board: a stable sort by a
    comparator, written as insertion sort. `le(a, b)` means "a may come
    before b"; a JavaScript comparator `cmp` gives `le(a, b) == cmp(a, b) <= 0`. */
module Sorting {
  import opened Lists

  /** The comparator is total and transitive, so a sorted order exists. */
  ghost predicate TotalPreorder<T(!new)>(le: (T, T) -> bool) {
    && (forall a, b :: le(a, b) || le(b, a))
    && (forall a, b, c :: le(a, b) && le(b, c) ==> le(a, c))
  }

  predicate SortedBy<T>(s: seq<T>, le: (T, T) -> bool) {
    forall i, j :: 0 <= i < j < |s| ==> le(s[i], s[j])
  }

  /** Puts `x` in front of the first element it may precede. */
  function Insert<T>(x: T, s: seq<T>, le: (T, T) -> bool): (r: seq<T>)
    ensures multiset(r) == multiset(s) + multiset{x}
    ensures |r| == |s| + 1
  {
    if s == [] then [x]
    else if le(x, s[0]) then [x] + s
    else
      assert s == [s[0]] + s[1..];
      [s[0]] + Insert(x, s[1..], le)
  }

  /** Insertion sort; an element is inserted in front of the elements it ties
      with that came after it in the input, so ties keep their input order. */
  function SortBy<T>(s: seq<T>, le: (T, T) -> bool): (r: seq<T>)
    ensures multiset(r) == multiset(s)
    ensures |r| == |s|
  {
    if s == [] then []
    else
      assert s == [s[0]] + s[1..];
      Insert(s[0], SortBy(s[1..], le), le)
  }

  lemma {:induction false} InsertSorted<T(!new)>(x: T, s: seq<T>, le: (T, T) -> bool)
    requires TotalPreorder(le)
    requires SortedBy(s, le)
    ensures SortedBy(Insert(x, s, le), le)
  {
    if s != [] && !le(x, s[0]) {
      var tail := Insert(x, s[1..], le);
      assert SortedBy(s[1..], le) by {
        forall i, j | 0 <= i < j < |s[1..]| ensures le(s[1..][i], s[1..][j]) {
          assert s[1..][i] == s[i + 1] && s[1..][j] == s[j + 1];
        }
      }
      InsertSorted(x, s[1..], le);
      assert le(s[0], x);
      forall k | 0 <= k < |tail| ensures le(s[0], tail[k]) {
        assert tail[k] in multiset(tail);
        if tail[k] != x {
          assert tail[k] in multiset(s[1..]);
          var m :| 0 <= m < |s[1..]| && s[1..][m] == tail[k];
          assert s[1..][m] == s[m + 1];
        }
      }
      var r := [s[0]] + tail;
      forall i, j | 0 <= i < j < |r| ensures le(r[i], r[j]) {
        if i > 0 {
          assert r[i] == tail[i - 1] && r[j] == tail[j - 1];
        } else {
          assert r[j] == tail[j - 1];
        }
      }
    }
  }

  /** The result of SortBy is ordered by the comparator. */
  lemma {:induction false} SortBySorted<T(!new)>(s: seq<T>, le: (T, T) -> bool)
    requires TotalPreorder(le)
    ensures SortedBy(SortBy(s, le), le)
  {
    if s != [] {
      SortBySorted(s[1..], le);
      InsertSorted(s[0], SortBy(s[1..], le), le);
    }
  }

  /** The comparator of `orderBy: { field: 'desc' }`. */
  function Desc<T>(key: T -> int): (T, T) -> bool {
    (a: T, b: T) => key(a) >= key(b)
  }

  /** The comparator of `orderBy: { field: 'asc' }`. */
  function Asc<T>(key: T -> int): (T, T) -> bool {
    (a: T, b: T) => key(a) <= key(b)
  }

  /** `findMany({ orderBy: { field: 'desc' } })`: the same rows, largest key first. */
  function OrderByDesc<T(!new)>(s: seq<T>, key: T -> int): (r: seq<T>)
    ensures multiset(r) == multiset(s)
    ensures forall i, j :: 0 <= i < j < |r| ==> key(r[i]) >= key(r[j])
  {
    SortBySorted(s, Desc(key));
    SortBy(s, Desc(key))
  }

  /** `findMany({ orderBy: { field: 'asc' } })`: the same rows, smallest key first. */
  function OrderByAsc<T(!new)>(s: seq<T>, key: T -> int): (r: seq<T>)
    ensures multiset(r) == multiset(s)
    ensures forall i, j :: 0 <= i < j < |r| ==> key(r[i]) <= key(r[j])
  {
    SortBySorted(s, Asc(key));
    SortBy(s, Asc(key))
  }

  /** `findMany({ where, orderBy: { field: 'desc' } })`: every row that satisfies
      `where`, as often as it occurs, and no other, largest key first. */
  function SelectDesc<T(!new)>(s: seq<T>, where: T -> bool, key: T -> int): (r: seq<T>)
    ensures forall x :: multiset(r)[x] == if where(x) then multiset(s)[x] else 0
    ensures forall i, j :: 0 <= i < j < |r| ==> key(r[i]) >= key(r[j])
  {
    FilterMultiset(s, where);
    OrderByDesc(Filter(s, where), key)
  }

  /** `findMany({ where, orderBy: { field: 'asc' } })`: every row that satisfies
      `where`, as often as it occurs, and no other, smallest key first. */
  function SelectAsc<T(!new)>(s: seq<T>, where: T -> bool, key: T -> int): (r: seq<T>)
    ensures forall x :: multiset(r)[x] == if where(x) then multiset(s)[x] else 0
    ensures forall i, j :: 0 <= i < j < |r| ==> key(r[i]) <= key(r[j])
  {
    FilterMultiset(s, where);
    OrderByAsc(Filter(s, where), key)
  }
}
