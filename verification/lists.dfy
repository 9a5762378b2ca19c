/** The list idioms the dashboard pages and routes are built from: `filter`,
    the `filter ? xs.filter(...) : xs` selection, `map` that swaps one row by
    id, `filter` that drops one id, `slice(0, n)` and `reduce` sums. */
module Lists {
  import opened Common

  /** `s.filter(p)`: the elements satisfying `p`, in their original order. */
  function Filter<T(!new)>(s: seq<T>, p: T -> bool): (r: seq<T>)
    ensures |r| <= |s|
    ensures forall x :: x in r <==> x in s && p(x)
    ensures forall i :: 0 <= i < |r| ==> p(r[i])
  {
    if s == [] then [] else (if p(s[0]) then [s[0]] else []) + Filter(s[1..], p)
  }

  /** The positions of `s` that Filter keeps, in increasing order: the i-th kept
      element is `s[Kept(s, p)[i]]`, so the filter keeps the relative order of
      what it keeps and skips exactly the elements that fail `p`. */
  function Kept<T(!new)>(s: seq<T>, p: T -> bool): (r: seq<int>)
    ensures |r| == |Filter(s, p)|
    ensures forall k :: 0 <= k < |r| ==> 0 <= r[k] < |s| && s[r[k]] == Filter(s, p)[k]
    ensures forall k, l :: 0 <= k < l < |r| ==> r[k] < r[l]
    ensures forall i :: 0 <= i < |s| && p(s[i]) ==> i in r
  {
    if s == [] then []
    else
      var t := Kept(s[1..], p);
      var shifted := Shift(t);
      KeptTail(s, p, t, shifted);
      var r := (if p(s[0]) then [0] else []) + shifted;
      KeptCons(s, p, Filter(s, p), Filter(s[1..], p), shifted, r);
      r
  }

  /** The kept positions of `s`: the head's, if it passes, then the tail's
      moved on (`f` and `ft` stand for the filtered list and filtered tail). */
  lemma KeptCons<T>(s: seq<T>, p: T -> bool, f: seq<T>, ft: seq<T>, shifted: seq<int>, r: seq<int>)
    requires s != [] && f == (if p(s[0]) then [s[0]] else []) + ft && |shifted| == |ft|
    requires forall k :: 0 <= k < |shifted| ==> 1 <= shifted[k] < |s| && s[shifted[k]] == ft[k]
    requires forall k, l :: 0 <= k < l < |shifted| ==> shifted[k] < shifted[l]
    requires forall i :: 1 <= i < |s| && p(s[i]) ==> i in shifted
    requires r == (if p(s[0]) then [0] else []) + shifted
    ensures |r| == |f|
    ensures forall k :: 0 <= k < |r| ==> 0 <= r[k] < |s| && s[r[k]] == f[k]
    ensures forall k, l :: 0 <= k < l < |r| ==> r[k] < r[l]
    ensures forall i :: 0 <= i < |s| && p(s[i]) ==> i in r
  {
    if p(s[0]) {
      assert f[1..] == ft;
      KeptHeadValues(s, f, shifted, r);
      KeptHeadOrder(shifted, r);
      KeptHeadAll(s, p, shifted, r);
    } else {
      assert r == shifted && f == ft;
    }
  }

  lemma KeptHeadValues<T>(s: seq<T>, f: seq<T>, shifted: seq<int>, r: seq<int>)
    requires s != [] && f != [] && f[0] == s[0] && |shifted| == |f| - 1
    requires forall k :: 0 <= k < |shifted| ==> 1 <= shifted[k] < |s| && s[shifted[k]] == f[1..][k]
    requires r == [0] + shifted
    ensures forall k :: 0 <= k < |r| ==> 0 <= r[k] < |s| && s[r[k]] == f[k]
  {
    forall k | 1 <= k < |r| ensures s[r[k]] == f[k] {
      assert r[k] == shifted[k - 1] && f[k] == f[1..][k - 1];
    }
  }

  lemma KeptHeadAll<T>(s: seq<T>, p: T -> bool, shifted: seq<int>, r: seq<int>)
    requires s != [] && p(s[0])
    requires forall i :: 1 <= i < |s| && p(s[i]) ==> i in shifted
    requires r == [0] + shifted
    ensures forall i :: 0 <= i < |s| && p(s[i]) ==> i in r
  {
    forall i | 1 <= i < |s| && p(s[i]) ensures i in r {
      var k :| 0 <= k < |shifted| && shifted[k] == i;
      assert r[k + 1] == i;
    }
  }

  lemma KeptHeadOrder(shifted: seq<int>, r: seq<int>)
    requires forall k :: 0 <= k < |shifted| ==> 1 <= shifted[k]
    requires forall k, l :: 0 <= k < l < |shifted| ==> shifted[k] < shifted[l]
    requires r == [0] + shifted
    ensures forall k, l :: 0 <= k < l < |r| ==> r[k] < r[l]
  {
    forall k, l | 0 <= k < l < |r| ensures r[k] < r[l] {
      assert r[l] == shifted[l - 1];
      if k > 0 {
        assert r[k] == shifted[k - 1];
      }
    }
  }

  /** Every position moved one place on. */
  function Shift(t: seq<int>): (r: seq<int>)
    ensures |r| == |t| && forall k :: 0 <= k < |t| ==> r[k] == t[k] + 1
  {
    seq(|t|, k requires 0 <= k < |t| => t[k] + 1)
  }

  /** The positions kept in the tail, moved one place on, are positions kept in `s`. */
  lemma KeptTail<T(!new)>(s: seq<T>, p: T -> bool, t: seq<int>, shifted: seq<int>)
    requires s != []
    requires |t| == |Filter(s[1..], p)|
    requires forall k :: 0 <= k < |t| ==> 0 <= t[k] < |s[1..]| && s[1..][t[k]] == Filter(s[1..], p)[k]
    requires forall k, l :: 0 <= k < l < |t| ==> t[k] < t[l]
    requires forall i :: 0 <= i < |s[1..]| && p(s[1..][i]) ==> i in t
    requires |shifted| == |t| && forall k :: 0 <= k < |t| ==> shifted[k] == t[k] + 1
    ensures forall k :: 0 <= k < |t| ==> 1 <= shifted[k] < |s| && s[shifted[k]] == Filter(s[1..], p)[k]
    ensures forall k, l :: 0 <= k < l < |t| ==> shifted[k] < shifted[l]
    ensures forall i :: 1 <= i < |s| && p(s[i]) ==> i in shifted
  {
    forall k | 0 <= k < |t| ensures s[shifted[k]] == Filter(s[1..], p)[k] {
      assert s[t[k] + 1] == s[1..][t[k]];
    }
    forall i | 1 <= i < |s| && p(s[i]) ensures i in shifted {
      assert s[1..][i - 1] == s[i];
      var k :| 0 <= k < |t| && t[k] == i - 1;
      assert shifted[k] == i;
    }
  }

  /** Filtering a concatenation filters each part and keeps them in order:
      the filter never reorders what it keeps. */
  lemma {:induction false} FilterConcat<T(!new)>(a: seq<T>, b: seq<T>, p: T -> bool)
    ensures Filter(a + b, p) == Filter(a, p) + Filter(b, p)
  {
    if a == [] {
      assert a + b == b;
    } else {
      assert (a + b)[0] == a[0];
      assert (a + b)[1..] == a[1..] + b;
      FilterConcat(a[1..], b, p);
    }
  }

  /** A filter every element passes keeps the whole list. */
  lemma {:induction false} FilterKeepsAll<T(!new)>(s: seq<T>, p: T -> bool)
    requires forall x :: x in s ==> p(x)
    ensures Filter(s, p) == s
  {
    if s != [] {
      FilterKeepsAll(s[1..], p);
    }
  }

  /** The kept and the dropped elements together account for the whole list. */
  lemma {:induction false} FilterSplit<T(!new)>(s: seq<T>, p: T -> bool, q: T -> bool)
    requires forall x :: q(x) <==> !p(x)
    ensures |Filter(s, p)| + |Filter(s, q)| == |s|
  {
    if s != [] {
      FilterSplit(s[1..], p, q);
    }
  }

  /** Each element occurs in the filtered list as often as in the list when it
      passes, and not at all otherwise. */
  lemma {:induction false} FilterMultiset<T(!new)>(s: seq<T>, p: T -> bool)
    ensures forall x :: multiset(Filter(s, p))[x] == if p(x) then multiset(s)[x] else 0
  {
    if s != [] {
      FilterMultiset(s[1..], p);
      assert s == [s[0]] + s[1..];
    }
  }

  /** The count of a filter, one element at a time. */
  lemma FilterLengthCons<T(!new)>(s: seq<T>, p: T -> bool)
    requires s != []
    ensures |Filter(s, p)| == (if p(s[0]) then 1 else 0) + |Filter(s[1..], p)|
  {
  }

  /** A filter keeps nothing exactly when no element passes it. */
  lemma FilterEmpty<T(!new)>(s: seq<T>, p: T -> bool)
    ensures |Filter(s, p)| == 0 <==> forall x :: x in s ==> !p(x)
  {
    if |Filter(s, p)| != 0 {
      assert Filter(s, p)[0] in Filter(s, p);
    }
  }

  /** Filters by two predicates that never hold together partition their counts. */
  lemma {:induction false} FilterDisjoint<T(!new)>(s: seq<T>, p: T -> bool, q: T -> bool)
    requires forall x :: !(p(x) && q(x))
    ensures |Filter(s, p)| + |Filter(s, q)| == |Filter(s, x => p(x) || q(x))|
  {
    if s != [] {
      FilterDisjoint(s[1..], p, q);
    }
  }

  /** `x => field(x) === value`. */
  function FieldIs<T>(field: T -> string, value: string): T -> bool {
    x => field(x) == value
  }

  /** `x => key(x) !== id`. */
  function KeyIsNot<T>(key: T -> Id, id: Id): T -> bool {
    x => key(x) != id
  }

  /** `filter ? xs.filter(x => field(x) === filter) : xs`: an empty selection
      imposes no constraint; otherwise the rows whose field equals it, in
      their order (see Kept). */
  function WhereEq<T(!new)>(s: seq<T>, filter: string, field: T -> string): (r: seq<T>)
    ensures filter == "" ==> r == s
    ensures filter != "" ==> forall x :: x in r <==> x in s && field(x) == filter
    ensures filter != "" ==> r == Filter(s, FieldIs(field, filter))
    ensures forall x :: multiset(r)[x] == if filter == "" || field(x) == filter then multiset(s)[x] else 0
  {
    FilterMultiset(s, FieldIs(field, filter));
    if filter == "" then s else Filter(s, FieldIs(field, filter))
  }

  /** `xs.map(x => key(x) === id ? y : x)`: the row carrying `id` is swapped for `y`. */
  function ReplaceById<T>(s: seq<T>, id: Id, y: T, key: T -> Id): (r: seq<T>)
    ensures |r| == |s|
    ensures forall i :: 0 <= i < |s| && key(s[i]) != id ==> r[i] == s[i]
    ensures forall i :: 0 <= i < |s| && key(s[i]) == id ==> r[i] == y
  {
    if s == [] then [] else [if key(s[0]) == id then y else s[0]] + ReplaceById(s[1..], id, y, key)
  }

  /** `xs.filter(x => key(x) !== id)`: exactly the rows carrying `id` disappear. */
  function RemoveById<T(!new)>(s: seq<T>, id: Id, key: T -> Id): (r: seq<T>)
    ensures r == Filter(s, KeyIsNot(key, id))
    ensures forall x :: x in r <==> x in s && key(x) != id
    ensures forall x :: multiset(r)[x] == if key(x) == id then 0 else multiset(s)[x]
    ensures |r| + |Filter(s, x => key(x) == id)| == |s|
  {
    FilterSplit(s, x => key(x) == id, KeyIsNot(key, id));
    FilterMultiset(s, KeyIsNot(key, id));
    Filter(s, KeyIsNot(key, id))
  }

  /** Deleting the id of a freshly prepended row (one whose id is not yet in the list)
      gives back the list as it was before the create. */
  lemma PrependThenRemove<T(!new)>(s: seq<T>, y: T, key: T -> Id)
    requires forall x :: x in s ==> key(x) != key(y)
    ensures RemoveById([y] + s, key(y), key) == s
  {
    assert ([y] + s)[0] == y;
    assert ([y] + s)[1..] == s;
    FilterKeepsAll(s, KeyIsNot(key, key(y)));
  }

  /** Replacing a row by an edited copy with the same id and then deleting that id
      is the same as deleting it straight away. */
  lemma {:induction false} ReplaceThenRemove<T(!new)>(s: seq<T>, id: Id, y: T, key: T -> Id)
    requires key(y) == id
    ensures RemoveById(ReplaceById(s, id, y, key), id, key) == RemoveById(s, id, key)
  {
    if s != [] {
      ReplaceThenRemove(s[1..], id, y, key);
      var r := ReplaceById(s, id, y, key);
      assert r == [r[0]] + ReplaceById(s[1..], id, y, key);
      assert r[1..] == ReplaceById(s[1..], id, y, key);
    }
  }

  /** A `handleSubmit` that saves through one form: after an edit the saved row
      takes the place of the row with the edited id; after a create it is
      prepended (`[saved, ...xs]`). */
  function SaveLocal<T>(s: seq<T>, editing: Option<Id>, saved: T, key: T -> Id): (r: seq<T>)
    ensures editing.None? ==> r == [saved] + s
    ensures editing.Some? ==> |r| == |s|
    ensures editing.Some? ==> forall i :: 0 <= i < |s| ==> r[i] == if key(s[i]) == editing.value then saved else s[i]
  {
    if editing.Some? then ReplaceById(s, editing.value, saved, key) else [saved] + s
  }

  /** Swapping for an id no row carries changes nothing. */
  lemma {:induction false} ReplaceAbsent<T>(s: seq<T>, id: Id, y: T, key: T -> Id)
    requires forall i :: 0 <= i < |s| ==> key(s[i]) != id
    ensures ReplaceById(s, id, y, key) == s
  {
    if s != [] {
      ReplaceAbsent(s[1..], id, y, key);
    }
  }

  /** With unique keys, swapping row `x` for `y` moves a sum by exactly `f(y) - f(x)`. */
  lemma {:induction false} SumReplace<T>(s: seq<T>, x: T, y: T, key: T -> Id, f: T -> int)
    requires UniqueIds(s, key) && x in s && key(y) == key(x)
    ensures Sum(ReplaceById(s, key(x), y, key), f) == Sum(s, f) - f(x) + f(y)
  {
    var id := key(x);
    var r := ReplaceById(s, id, y, key);
    assert r == [r[0]] + ReplaceById(s[1..], id, y, key);
    if s[0] == x {
      ReplaceAbsent(s[1..], id, y, key);
    } else {
      assert key(s[0]) != id by {
        var k :| 0 <= k < |s| && s[k] == x;
        assert k != 0;
      }
      assert UniqueIds(s[1..], key);
      SumReplace(s[1..], x, y, key, f);
    }
  }

  /** `xs.find(p)`: the first element satisfying `p`, if any (the store's
      `findUnique` is the same search over a table with unique keys). */
  function Find<T(!new)>(s: seq<T>, p: T -> bool): (r: Option<T>)
    ensures r.None? <==> forall x :: x in s ==> !p(x)
    ensures r.Some? ==> r.value in s && p(r.value)
  {
    if s == [] then None
    else if p(s[0]) then Some(s[0])
    else Find(s[1..], p)
  }

  /** What Find returns is the earliest match: no element before it satisfies `p`. */
  lemma {:induction false} FindIsFirst<T(!new)>(s: seq<T>, p: T -> bool)
    requires Find(s, p).Some?
    ensures exists i :: 0 <= i < |s| && s[i] == Find(s, p).value && forall j :: 0 <= j < i ==> !p(s[j])
  {
    if !p(s[0]) {
      FindIsFirst(s[1..], p);
      var i :| 0 <= i < |s[1..]| && s[1..][i] == Find(s, p).value && forall j :: 0 <= j < i ==> !p(s[1..][j]);
      assert s[i + 1] == Find(s, p).value;
      assert forall j :: 0 <= j < i + 1 ==> !p(s[j]) by {
        forall j | 0 <= j < i + 1 ensures !p(s[j]) {
          if j > 0 { assert s[j] == s[1..][j - 1]; }
        }
      }
    } else {
      assert s[0] == Find(s, p).value;
    }
  }

  /** No two rows share a key (a primary-key column). */
  predicate UniqueIds<T>(s: seq<T>, key: T -> Id) {
    forall i, j :: 0 <= i < j < |s| ==> key(s[i]) != key(s[j])
  }

  /** The keys present in a table. */
  function Ids<T(!new)>(s: seq<T>, key: T -> Id): (r: set<Id>)
    ensures forall x :: x in s ==> key(x) in r
    ensures forall id :: id in r ==> exists x :: x in s && key(x) == id
  {
    set i | 0 <= i < |s| :: key(s[i])
  }

  /** With unique keys, a lookup by key finds the one row that carries it. */
  lemma FindUnique<T(!new)>(s: seq<T>, x: T, key: T -> Id)
    requires UniqueIds(s, key) && x in s
    ensures Find(s, y => key(y) == key(x)) == Some(x)
  {
    var r := Find(s, y => key(y) == key(x));
    FindIsFirst(s, y => key(y) == key(x));
    var i :| 0 <= i < |s| && s[i] == r.value && forall j :: 0 <= j < i ==> key(s[j]) != key(x);
    var k :| 0 <= k < |s| && s[k] == x;
    assert !(k < i);
    assert !(i < k);
  }

  /** Swapping a row for one with the same key keeps the set of keys and their uniqueness. */
  lemma ReplaceKeepsIds<T(!new)>(s: seq<T>, id: Id, y: T, key: T -> Id)
    requires key(y) == id
    ensures Ids(ReplaceById(s, id, y, key), key) == Ids(s, key)
    ensures UniqueIds(s, key) ==> UniqueIds(ReplaceById(s, id, y, key), key)
  {
    var r := ReplaceById(s, id, y, key);
    assert forall i :: 0 <= i < |s| ==> key(r[i]) == key(s[i]);
    forall k | k in Ids(s, key) ensures k in Ids(r, key) {
      var i :| 0 <= i < |s| && key(s[i]) == k;
      assert key(r[i]) == k;
    }
  }

  /** Appending a row whose key is not yet taken keeps the keys unique. */
  lemma AppendUnique<T(!new)>(s: seq<T>, y: T, key: T -> Id)
    requires UniqueIds(s, key) && key(y) !in Ids(s, key)
    ensures UniqueIds(s + [y], key)
  {
    var r := s + [y];
    forall i, j | 0 <= i < j < |r| ensures key(r[i]) != key(r[j]) {
      if j == |s| {
        assert r[i] in s;
      }
    }
  }

  /** `xs.slice(0, n)`. */
  function Take<T>(s: seq<T>, n: nat): (r: seq<T>)
    ensures |r| == if |s| < n then |s| else n
    ensures r <= s
  {
    if |s| < n then s else s[..n]
  }

  /** `xs.reduce((sum, x) => sum + f(x), 0)`. */
  function Sum<T>(s: seq<T>, f: T -> int): int {
    if s == [] then 0 else f(s[0]) + Sum(s[1..], f)
  }

  /** Elements on which `f` is zero can be left out of a sum. */
  lemma {:induction false} SumSkipsZeros<T(!new)>(s: seq<T>, p: T -> bool, f: T -> int)
    requires forall x :: x in s && !p(x) ==> f(x) == 0
    ensures Sum(Filter(s, p), f) == Sum(s, f)
  {
    if s != [] {
      assert forall x :: x in s[1..] ==> x in s;
      SumSkipsZeros(s[1..], p, f);
      if p(s[0]) {
        assert Filter(s, p) == [s[0]] + Filter(s[1..], p);
        assert Filter(s, p)[1..] == Filter(s[1..], p);
      } else {
        assert Filter(s, p) == Filter(s[1..], p);
      }
    }
  }

  /** A sum of terms none of which is negative is not negative. */
  lemma {:induction false} SumNonNegative<T>(s: seq<T>, f: T -> int)
    ensures (forall x :: x in s ==> f(x) >= 0) ==> Sum(s, f) >= 0
  {
    if s != [] {
      SumNonNegative(s[1..], f);
      assert forall x :: x in s[1..] ==> x in s;
    }
  }

  /** A sum over a concatenation is the sum of the sums. */
  lemma {:induction false} SumConcat<T>(a: seq<T>, b: seq<T>, f: T -> int)
    ensures Sum(a + b, f) == Sum(a, f) + Sum(b, f)
  {
    if a == [] {
      assert a + b == b;
    } else {
      assert (a + b)[1..] == a[1..] + b;
      SumConcat(a[1..], b, f);
    }
  }
}
